/** The flag words of an fdevent (module/input/in_event.c:88-93). A mask is modelled as the set
    of its bits: `|` is union, `&` intersection and `& ~` difference. */
module FdFlags {

  /** The bits of the event byte; the reactor itself knows three of them. */
  datatype Event = FdeRead | FdeWrite | FdeError | OtherBit(n: nat)

  type Events = set<Event>

  /** The state word: the life-cycle bits and the watched events below them. */
  datatype State = State(active: bool, pending: bool, created: bool, watched: Events)

  /** What a handler does when it is called: anything the public interface allows, or the
      built-in notification handler for exited subprocesses. */
  datatype Handler = UserFunc | SubprocFunc

  const CLEAR: State := State(false, false, false, {})

  function Raised(events: Events, event: Event, on: bool): Events {
    if on then events + {event} else events
  }

  /** The events select reported for one descriptor. */
  function ReadyBits(i: int, rfd: set<int>, wfd: set<int>, efd: set<int>): (bits: Events)
    ensures forall e :: e in bits <==>
              (e == FdeRead && i in rfd) || (e == FdeWrite && i in wfd) || (e == FdeError && i in efd)
  {
    Raised(Raised(Raised({}, FdeRead, i in rfd), FdeWrite, i in wfd), FdeError, i in efd)
  }

  lemma ReadyBitsEmpty(i: int, rfd: set<int>, wfd: set<int>, efd: set<int>)
    ensures ReadyBits(i, rfd, wfd, efd) == {} <==> i !in rfd && i !in wfd && i !in efd
  {
    var bits := ReadyBits(i, rfd, wfd, efd);
    assert i in rfd ==> FdeRead in bits;
    assert i in wfd ==> FdeWrite in bits;
    assert i in efd ==> FdeError in bits;
  }
}

/** The select-based event loop of module/input/in_event.c. */
module Reactor {
  import opened FdFlags
  import opened Sequences
  import opened Trace

  /** The calls of FATAL in the file, by message. */
  datatype Fatal = BogusFd | NotCreated | PipeRead | SubprocRange | MissingFde | FdOutOfRange | OutOfSync

  datatype Outcome = Running | Aborted(reason: Fatal)

  class Fdevent {
    var next: Fdevent?
    var prev: Fdevent?
    var fd: int
    var forceEof: bool
    var state: State
    var events: Events
    var handler: Handler
  }

  datatype Errno = EINTR | EBADF | OtherErrno

  /** What select returns: the three result sets and their total number of bits, or an error. */
  datatype Selected = Ready(n: int, rfd: set<int>, wfd: set<int>, efd: set<int>) | Failed(errno: Errno)

  /** The fdevents that one pass over descriptors [0, hi) adds to the pending list, in
      ascending descriptor order: the ready ones that were not queued already. */
  ghost function NewlyReady(table: seq<Fdevent?>, rfd: set<int>, wfd: set<int>, efd: set<int>,
                            queued: seq<Fdevent>, hi: nat): seq<Fdevent>
    requires hi <= |table|
    requires forall i :: 0 <= i < |table| && (i in rfd || i in wfd || i in efd) ==> table[i] != null
  {
    if hi == 0 then []
    else
      var i := hi - 1;
      NewlyReady(table, rfd, wfd, efd, queued, i)
      + (if (i in rfd || i in wfd || i in efd) && table[i] !in queued then [table[i]] else [])
  }

  lemma NewlyReadyStep(table: seq<Fdevent?>, rfd: set<int>, wfd: set<int>, efd: set<int>, queued: seq<Fdevent>, i: nat)
    requires i < |table|
    requires forall i :: 0 <= i < |table| && (i in rfd || i in wfd || i in efd) ==> table[i] != null
    ensures var before := queued + NewlyReady(table, rfd, wfd, efd, queued, i);
            queued + NewlyReady(table, rfd, wfd, efd, queued, i + 1)
            == if (i in rfd || i in wfd || i in efd) && table[i] !in queued then before + [table[i]] else before
  {
  }

  /** Descriptors that are not ready add nothing. */
  lemma {:induction false} NewlyReadyTail(table: seq<Fdevent?>, rfd: set<int>, wfd: set<int>, efd: set<int>,
                                          queued: seq<Fdevent>, lo: nat, hi: nat)
    requires lo <= hi <= |table|
    requires forall i :: 0 <= i < |table| && (i in rfd || i in wfd || i in efd) ==> table[i] != null
    requires forall i :: lo <= i < hi ==> i !in rfd && i !in wfd && i !in efd
    ensures NewlyReady(table, rfd, wfd, efd, queued, hi) == NewlyReady(table, rfd, wfd, efd, queued, lo)
  {
    if lo < hi { NewlyReadyTail(table, rfd, wfd, efd, queued, lo, hi - 1); }
  }

  /** Their descriptors. */
  ghost function ReadyFds(table: seq<Fdevent?>, rfd: set<int>, wfd: set<int>, efd: set<int>,
      queued: seq<Fdevent>, hi: nat): seq<int>
    requires hi <= |table|
  {
    if hi == 0 then []
    else
      var i := hi - 1;
      ReadyFds(table, rfd, wfd, efd, queued, i)
      + (if (i in rfd || i in wfd || i in efd) && table[i] !in queued then [i] else [])
  }

  /** They come in ascending order of their descriptors, each once. */
  lemma {:induction false} NewlyReadyAscends(table: seq<Fdevent?>, rfd: set<int>, wfd: set<int>, efd: set<int>,
                                             queued: seq<Fdevent>, hi: nat)
    requires hi <= |table|
    requires forall i :: 0 <= i < |table| && (i in rfd || i in wfd || i in efd) ==> table[i] != null
    ensures var fds, ready := ReadyFds(table, rfd, wfd, efd, queued, hi), NewlyReady(table, rfd, wfd, efd, queued, hi);
            |fds| == |ready| && forall k :: 0 <= k < |fds| ==> 0 <= fds[k] < hi && table[fds[k]] == ready[k]
    ensures var fds := ReadyFds(table, rfd, wfd, efd, queued, hi);
            forall j, k :: 0 <= j < k < |fds| ==> fds[j] < fds[k]
  {
    if hi > 0 {
      NewlyReadyAscends(table, rfd, wfd, efd, queued, hi - 1);
    }
  }

  lemma {:induction false} ReadyFdsAreAll(table: seq<Fdevent?>, rfd: set<int>, wfd: set<int>, efd: set<int>,
                                          queued: seq<Fdevent>, hi: nat, i: int)
    requires hi <= |table|
    ensures i in ReadyFds(table, rfd, wfd, efd, queued, hi)
            <==> 0 <= i < hi && (i in rfd || i in wfd || i in efd) && table[i] !in queued
  {
    if hi > 0 {
      ReadyFdsAreAll(table, rfd, wfd, efd, queued, hi - 1, i);
    }
  }

  /** `left` is the part of `fds` from descriptor `i` on. */
  ghost predicate Rest(left: set<int>, fds: set<int>, i: int) {
    forall x :: x in left <==> x in fds && i <= x
  }

  /** FD_SET or FD_CLR. */
  function Toggled(fds: set<int>, fd: int, on: bool): set<int> {
    if on then fds + {fd} else fds - {fd}
  }

  /** What repeated doubling from 256 can make of the table size. */
  const TABLE_SIZES: set<int> := {0, 256, 512, 1024, 2048, 4096, 8192, 16384, 32768}

  /** The descriptors fdevent_register refuses: negative ones, and those above 32000 that the
      table does not reach already. */
  predicate BadFd(fd: int, tableMax: int) {
    fd < 0 || (fd >= tableMax && fd > 32000)
  }

  /** The events still queued for a pending fdevent once its watched events become `events`. */
  function QueuedAfterSet(queued: Events, events: Events): Events {
    queued - events
  }

  /** The calls of the public interface that a handler may make. */
  datatype ApiCall =
    | CallInstall(fd: int, handler: Handler)
    | CallCreate(fd: int, handler: Handler)
    | CallRemove
    | CallDestroy
    | CallSet(events: Events)
    | CallAdd(events: Events)
    | CallDel(events: Events)

  /** What the operating system does in one round of the loop: which watched descriptors it
      reports, or the error of select, and which descriptors have gone bad. */
  datatype Kernel = Kernel(readable: set<int>, writable: set<int>, erring: set<int>, failure: seq<Errno>, bad: set<int>)

  class Reactor {
    /** Sentinel of the circular doubly linked list of pending fdevents. */
    const listPending: Fdevent
    var fdTable: array<Fdevent?>
    var fdTableMax: int
    var selectN: int
    var readFds: set<int>
    var writeFds: set<int>
    var errorFds: set<int>
    /** Unread subprocess notifications on the shell-exit socket pair. */
    var notices: seq<Notice>

    /** Every fdevent handed to fdevent_install so far. */
    var live: set<Fdevent>
    /** The pending list in order, and the fdevents unlinked from it other than by dispatch
        since they were last queued. */
    ghost var pending: seq<Fdevent>
    ghost var cancelled: set<Fdevent>
    /** Every handler called and every notification read so far. */
    ghost var trace: seq<Entry<Fdevent>>

    /** The fdevent at position `i` points at its two neighbours, the sentinel standing at both ends. */
    ghost predicate Linked(s: seq<Fdevent>, i: int)
      requires 0 <= i < |s|
      reads s`next, s`prev
    {
      && s[i].next == (if i + 1 < |s| then s[i + 1] else listPending)
      && s[i].prev == (if 0 < i then s[i - 1] else listPending)
    }

    /** The sentinel and `s` form a circular doubly linked list. */
    ghost predicate RingOf(s: seq<Fdevent>)
      reads listPending`next, listPending`prev, s`next, s`prev
    {
      && listPending.next == (if |s| > 0 then s[0] else listPending)
      && listPending.prev == (if |s| > 0 then s[|s| - 1] else listPending)
      && (forall i {:trigger Linked(s, i)} :: 0 <= i < |s| ==> Linked(s, i))
    }

    /** Shape of the pending list: a circular doubly linked list through the sentinel, no
        fdevent on it twice, and every other fdevent unlinked. */
    ghost predicate ListShape()
      reads `live, `pending, `cancelled, listPending`next,
          listPending`prev, live`next, live`prev, pending`next, pending`prev
    {
      && listPending !in live
      && (forall f :: f in pending ==> f in live && f !in cancelled)
      && Distinct(pending)
      && RingOf(pending)
      && (forall f :: f in live && f !in pending ==> f.next == null && f.prev == null)
    }

    ghost predicate TableSize()
      reads `fdTable, `fdTableMax
    {
      fdTableMax == fdTable.Length && fdTableMax in TABLE_SIZES
    }

    /** Agreement of the descriptor table, the ACTIVE bits and the select bound. */
    ghost predicate TableShape()
      reads `fdTable, `fdTableMax, `selectN, `live, fdTable, live`fd, live`state
    {
      && TableSize()
      && 0 <= selectN <= fdTableMax
      && (forall i :: 0 <= i < fdTable.Length && fdTable[i] != null ==>
            fdTable[i] in live && fdTable[i].fd == i && i < selectN)
      && (forall f :: f in live ==>
            (f.state.active <==> 0 <= f.fd < fdTable.Length && fdTable[f.fd] == f))
    }

    ghost predicate Watches(fds: set<int>, bit: Event)
      reads `fdTable, `live, fdTable, live`state
    {
      forall i :: i in fds <==>
                  0 <= i < fdTable.Length && fdTable[i] != null && fdTable[i] in live && bit in fdTable[i].state.watched
    }

    ghost predicate InterestSets()
      reads `fdTable, `live, `readFds, `writeFds, `errorFds, fdTable, live`state
    {
      Watches(readFds, FdeRead) && Watches(writeFds, FdeWrite) && Watches(errorFds, FdeError)
    }

    /** On the list, marked PENDING and holding events are one and the same, for every
        fdevent but `w`, the one between dequeue and dispatch. */
    ghost predicate PendingMarks(w: Fdevent?)
      reads `live, `pending, live`state, live`events
    {
      && (w != null ==> w in live && w !in pending && w.events != {} && w.state.pending
                        && w.state.active)
      && (forall f :: f in live && f != w ==>
            && (f.state.pending <==> f in pending)
            && (f.events != {} <==> f in pending)
            && (f in pending ==> f.state.active))
    }

    ghost predicate Consistent(w: Fdevent?)
      reads `live, `pending, `cancelled, `fdTable, `fdTableMax, `selectN, `readFds, `writeFds, `errorFds, fdTable,
            listPending`next, listPending`prev, pending`next, pending`prev,
            live`next, live`prev, live`fd, live`state, live`events
    {
      ListShape() && TableShape() && InterestSets() && PendingMarks(w)
    }

    ghost predicate Valid()
      reads `live, `pending, `cancelled, `fdTable, `fdTableMax, `selectN, `readFds, `writeFds, `errorFds, fdTable,
            listPending`next, listPending`prev, pending`next, pending`prev,
            live`next, live`prev, live`fd, live`state, live`events
    {
      Consistent(null)
    }

    constructor ()
      ensures Valid() && live == {} && pending == [] && notices == [] && trace == []
      ensures fresh(listPending) && fresh(fdTable) && fdTable.Length == 0
    {
      listPending := new Fdevent;
      fdTable := new Fdevent?[0];
      fdTableMax, selectN := 0, 0;
      readFds, writeFds, errorFds := {}, {}, {};
      notices, trace := [], [];
      live, pending, cancelled := {}, [], {};
      new;
      listPending.next, listPending.prev := listPending, listPending;
    }

    method PlistEnqueue(node: Fdevent)
      requires ListShape() && node in live && node !in pending
      modifies listPending`next, listPending`prev, live`next, live`prev, `pending, `cancelled
      ensures ListShape()
      ensures pending == old(pending) + [node] && cancelled == old(cancelled) - {node}
    {
      node.next := listPending;
      node.prev := listPending.prev;
      node.prev.next := node;
      listPending.prev := node;
      pending := pending + [node];
      cancelled := cancelled - {node};
      forall i | 0 <= i < |pending|
        ensures Linked(pending, i)
      {
        assert i < |old(pending)| ==> old(Linked(pending, i));
      }
    }

    method PlistRemove(node: Fdevent)
      requires ListShape() && node in pending
      modifies listPending`next, listPending`prev, live`next, live`prev, `pending, `cancelled
      ensures ListShape()
      ensures cancelled == old(cancelled) + {node}
      ensures pending == Without(old(pending), cancelled)
    {
      hide RingOf, Distinct, Without;
      ghost var k :| 0 <= k < |pending| && pending[k] == node;
      RemovedAt(pending, k, cancelled);
      Neighbours(k);
      pending := pending[..k] + pending[k + 1..];
      cancelled := cancelled + {node};
      Unhook(node);
      Unlinked(k);
    }

    lemma Neighbours(k: nat)
      requires ListShape() && k < |pending|
      ensures pending[k].next != null && pending[k].prev != null
      ensures {pending[k].next, pending[k].prev} <= live + {listPending} - {pending[k]}
    {
      assert Linked(pending, k);
    }

    /** The two neighbours are linked to each other. */
    method Unhook(node: Fdevent)
      requires node in live && node != listPending && node.next != null && node.prev != null
      requires {node.next, node.prev} <= live + {listPending} - {node}
      modifies listPending`next, listPending`prev, live`next, live`prev
      ensures Detached(node)
    {
      node.prev.next := node.next;
      node.next.prev := node.prev;
      node.next := null;
      node.prev := null;
    }

    /** Unlinking the fdevent at position `k` leaves a well-shaped list without it. */
    twostate lemma Unlinked(k: nat)
      requires old(ListShape()) && k < |old(pending)|
      requires live == old(live) && cancelled == old(cancelled) + {old(pending)[k]}
      requires pending == old(pending)[..k] + old(pending)[k + 1..]
      requires forall f :: f in pending <==> f in old(pending) && f != old(pending)[k]
      requires Distinct(pending)
      requires Detached(old(pending)[k])
      ensures ListShape()
    {
      ghost var was := old(pending);
      assert old(Linked(was, k));
      assert 0 < k ==> old(Linked(was, k - 1));
      assert k + 1 < |was| ==> old(Linked(was, k + 1));
      forall i | 0 <= i < |pending|
        ensures Linked(pending, i)
      {
        assert old(Linked(was, if i < k then i else i + 1));
      }
    }

    /** `node` has been unhooked from its two neighbours and no other link has changed. */
    twostate predicate Detached(node: Fdevent)
      reads this, listPending, live, node
    {
      && live == old(live)
      && node.next == null && node.prev == null
      && (forall f :: f in live + {listPending} && f != node ==>
            && f.next == (if f == old(node.prev) then old(node.next) else old(f.next))
            && f.prev == (if f == old(node.next) then old(node.prev) else old(f.prev)))
    }

    method PlistDequeue() returns (node: Fdevent?)
      requires ListShape()
      modifies listPending`next, listPending`prev, live`next, live`prev, `pending
      ensures ListShape()
      ensures node == null <==> old(pending) == []
      ensures node == null ==> pending == []
      ensures node != null ==> old(pending) == [node] + pending && node !in pending
    {
      assert pending != [] ==> pending[0] in live;
      node := listPending.next;
      if node == listPending {
        return null;
      }
      assert Linked(pending, 0);
      assert |pending| > 1 ==> Linked(pending, 1);
      listPending.next := node.next;
      listPending.next.prev := listPending;
      node.next := null;
      node.prev := null;
      pending := pending[1..];
      forall i | 0 <= i < |pending|
        ensures Linked(pending, i)
      {
        assert old(Linked(pending, i + 1));
      }
    }

    method Connect(fde: Fdevent)
      modifies `selectN
      ensures selectN == if fde.fd >= old(selectN) then fde.fd + 1 else old(selectN)
    {
      if fde.fd >= selectN {
        selectN := fde.fd + 1;
      }
    }

    /** Drops the descriptor from the interest sets and lowers the select bound to just above
        the highest occupied slot below it (slot 0 if there is none). */
    method Disconnect(fde: Fdevent)
      requires 0 <= selectN <= fdTable.Length
      modifies `readFds, `writeFds, `errorFds, `selectN
      ensures readFds == old(readFds) - {fde.fd}
      ensures writeFds == old(writeFds) - {fde.fd}
      ensures errorFds == old(errorFds) - {fde.fd}
      ensures 1 <= selectN <= if old(selectN) == 0 then 1 else old(selectN)
      ensures forall i :: selectN <= i < old(selectN) ==> fdTable[i] == null
      ensures selectN == 1 || fdTable[selectN - 1] != null
    {
      readFds := readFds - {fde.fd};
      writeFds := writeFds - {fde.fd};
      errorFds := errorFds - {fde.fd};
      var n, i := 0, 0;
      while i < selectN
        invariant 0 <= n <= i <= selectN && (n < i || i == 0)
        invariant n == 0 || fdTable[n] != null
        invariant forall j :: n < j < i ==> fdTable[j] == null
      {
        if fdTable[i] != null {
          n := i;
        }
        i := i + 1;
      }
      selectN := n + 1;
    }

    method Update(fde: Fdevent, events: Events)
      modifies `readFds, `writeFds, `errorFds, fde`state
      ensures readFds == Toggled(old(readFds), fde.fd, FdeRead in events)
      ensures writeFds == Toggled(old(writeFds), fde.fd, FdeWrite in events)
      ensures errorFds == Toggled(old(errorFds), fde.fd, FdeError in events)
      ensures fde.state == old(fde.state).(watched := events)
    {
      if FdeRead in events {
        readFds := readFds + {fde.fd};
      } else {
        readFds := readFds - {fde.fd};
      }
      if FdeWrite in events {
        writeFds := writeFds + {fde.fd};
      } else {
        writeFds := writeFds - {fde.fd};
      }
      if FdeError in events {
        errorFds := errorFds + {fde.fd};
      } else {
        errorFds := errorFds - {fde.fd};
      }
      fde.state := fde.state.(watched := events);
    }

    /** Enters the fdevent in the table, doubling the table until the descriptor fits; every
        other slot keeps its occupant. */
    method Register(fde: Fdevent) returns (outcome: Outcome)
      requires TableSize()
      modifies `fdTable, `fdTableMax, `readFds, `writeFds, `errorFds, fdTable
      ensures outcome == if BadFd(fde.fd, old(fdTableMax)) then Aborted(BogusFd) else Running
      ensures outcome.Running? ==>
                && TableSize() && old(fdTableMax) <= fdTableMax && fde.fd < fdTableMax
                && (fdTable == old(fdTable) || fresh(fdTable))
                && fdTable[fde.fd] == fde
                && (forall i :: 0 <= i < old(fdTableMax) && i != fde.fd ==> fdTable[i] == old(fdTable[i]))
                && (forall i :: old(fdTableMax) <= i < fdTableMax && i != fde.fd ==> fdTable[i] == null)
      ensures outcome.Running? ==>
                fdTableMax == (if old(fdTableMax) == 0 then 256 else old(fdTableMax)) || fdTableMax / 2 <= fde.fd
      ensures outcome.Aborted? ==> fdTable == old(fdTable)
      ensures old(fdTableMax) > 0 || fde.fd < 0 ==>
                readFds == old(readFds) && writeFds == old(writeFds) && errorFds == old(errorFds)
      ensures old(fdTableMax) == 0 && outcome.Running? ==> readFds == {} && writeFds == {} && errorFds == {}
    {
      if fde.fd < 0 {
        return Aborted(BogusFd);
      }
      if fde.fd >= fdTableMax {
        var oldMax := fdTableMax;
        if fde.fd > 32000 {
          return Aborted(BogusFd);
        }
        if fdTableMax == 0 {
          readFds, writeFds, errorFds := {}, {}, {};
          fdTableMax := 256;
        }
        while fdTableMax <= fde.fd
          modifies `fdTableMax
          invariant fdTableMax in TABLE_SIZES && oldMax <= fdTableMax && 256 <= fdTableMax
          invariant fdTableMax == (if oldMax == 0 then 256 else oldMax) || fdTableMax / 2 <= fde.fd
        {
          fdTableMax := fdTableMax * 2;
        }
        var grown := new Fdevent?[fdTableMax];
        forall i | 0 <= i < oldMax {
          grown[i] := fdTable[i];
        }
        forall i | oldMax <= i < fdTableMax {
          grown[i] := null;
        }
        fdTable := grown;
      }
      fdTable[fde.fd] := fde;
      return Running;
    }

    method Unregister(fde: Fdevent) returns (outcome: Outcome)
      requires fdTableMax == fdTable.Length
      modifies fdTable
      ensures outcome == if !(0 <= fde.fd < fdTableMax) then Aborted(FdOutOfRange)
                         else if old(fdTable[fde.fd]) != fde then Aborted(OutOfSync) else Running
      ensures forall i :: 0 <= i < fdTableMax ==>
                            fdTable[i] == if i == fde.fd && outcome.Running? then null else old(fdTable[i])
    {
      if fde.fd < 0 || fde.fd >= fdTableMax {
        return Aborted(FdOutOfRange);
      }
      if fdTable[fde.fd] != fde {
        return Aborted(OutOfSync);
      }
      fdTable[fde.fd] := null;
      return Running;
    }

    predicate SlotFree(fd: int)
      reads this, fdTable
    {
      fd < 0 || fd >= fdTable.Length || fdTable[fd] == null
    }

    /** An fdevent is not queued, and its new descriptor is either free or the one it holds already
        without being watched there. */
    predicate Installable(fde: Fdevent, fd: int)
      reads this, fdTable, fde
    {
      && (fde in live ==> !fde.state.pending)
      && if fde in live && fde.state.active then fde.fd == fd && fde.state.watched !! {FdeRead, FdeWrite, FdeError}
         else SlotFree(fd)
    }

    /** The opening assignments of fdevent_install. */
    method Blank(fde: Fdevent, fd: int, handler: Handler)
      modifies fde
      ensures fde.next == null && fde.prev == null && fde.events == {} && !fde.forceEof
      ensures fde.state == CLEAR.(active := true) && fde.fd == fd && fde.handler == handler
    {
      fde.next, fde.prev, fde.events := null, null, {};
      fde.state := CLEAR.(active := true);
      fde.fd := fd;
      fde.forceEof := false;
      fde.handler := handler;
    }

    /** The statements of fdevent_install, which look at neither the fdevent nor the slot. */
    method Overwrite(fde: Fdevent, fd: int, handler: Handler) returns (outcome: Outcome)
      requires TableSize() && fde != listPending
      modifies `live, `fdTable, `fdTableMax, `selectN, `readFds, `writeFds, `errorFds, fdTable, fde
      ensures outcome == if BadFd(fd, old(fdTableMax)) then Aborted(BogusFd) else Running
      ensures outcome.Running? ==> InstallEffect(fde, fd) && FieldsKept(fd)
      ensures fdTable == old(fdTable) || fresh(fdTable)
      ensures fde.handler == handler && fde.events == {}
      ensures live == old(live) + {fde}
    {
      live := live + {fde};
      Blank(fde, fd, handler);
      outcome := Register(fde);
      if outcome.Running? {
        Connect(fde);
        fde.state := fde.state.(active := true);
      }
    }

    lemma Sized()
      requires Valid()
      ensures TableSize()
    {
    }

    /** fdevent_install overwrites the fdevent and the slot of its descriptor unseen. These are exactly
        the installs after which the reactor is still consistent. */
    method Install(fde: Fdevent, fd: int, handler: Handler) returns (outcome: Outcome)
      requires Valid() && fde != listPending
      modifies `live, `fdTable, `fdTableMax, `selectN, `readFds, `writeFds, `errorFds, fdTable, fde
      ensures outcome == if BadFd(fd, old(fdTableMax)) then Aborted(BogusFd) else Running
      ensures outcome.Running? ==> (Valid() <==> old(Installable(fde, fd)))
      ensures outcome.Running? ==> InstallEffect(fde, fd)
      ensures fdTable == old(fdTable) || fresh(fdTable)
      ensures fde.handler == handler && fde.events == {}
      ensures live == old(live) + {fde}
    {
      hide Valid, FieldsKept;
      Sized();
      outcome := Overwrite(fde, fd, handler);
      if outcome.Running? {
        InstallVerdict(fd);
      }
    }

    /** The net effect of fdevent_install: a blank active fdevent in slot `fd` of a table that
        may have grown by empty slots. */
    twostate predicate InstallEffect(new fde: Fdevent, fd: int)
      reads this, fdTable, fde
    {
      && live == old(live) + {fde} && pending == old(pending) && cancelled == old(cancelled)
      && fde.next == null && fde.prev == null && fde.fd == fd
      && fde.state == CLEAR.(active := true) && fde.events == {}
      && TableSize() && old(fdTableMax) <= fdTableMax && 0 <= fd < fdTableMax
      && (forall i :: 0 <= i < fdTableMax ==>
            fdTable[i] == if i == fd then fde else if i < old(fdTable.Length) then old(fdTable[i]) else null)
      && selectN == (if fd >= old(selectN) then fd + 1 else old(selectN))
      && (old(fdTableMax) > 0 ==>
            readFds == old(readFds) && writeFds == old(writeFds) && errorFds == old(errorFds))
      && (old(fdTableMax) == 0 ==> readFds == {} && writeFds == {} && errorFds == {})
    }

    /** Every fdevent known before, other than the occupant of slot `fd`, keeps all its fields. */
    twostate predicate FieldsKept(fd: int)
      reads this, live, listPending, fdTable
    {
      && 0 <= fd < fdTable.Length
      && listPending.next == old(listPending.next) && listPending.prev == old(listPending.prev)
      && (forall f :: f in old(live) && f in live && f != fdTable[fd] ==>
            f.fd == old(f.fd) && f.state == old(f.state) && f.events == old(f.events)
            && f.next == old(f.next) && f.prev == old(f.prev))
    }

    /** `Installable`, of the fdevent that now holds slot `fd`. */
    twostate predicate WasInstallable(fd: int)
      requires 0 <= fd < fdTable.Length
      reads this, fdTable
    {
      && (forall f :: f in old(live) && f == fdTable[fd] ==>
            !old(f.state.pending)
            && (old(f.state.active) ==> old(f.fd) == fd && old(f.state.watched) !! {FdeRead, FdeWrite, FdeError})
            && (!old(f.state.active) ==> old(SlotFree(fd))))
      && (fdTable[fd] !in old(live) ==> old(SlotFree(fd)))
    }

    twostate lemma InstallVerdict(fd: int)
      requires old(Valid()) && FieldsKept(fd)
      requires fdTable[fd] != null && fdTable[fd] != listPending && InstallEffect(fdTable[fd], fd)
      ensures Valid() <==> WasInstallable(fd)
    {
      hide Valid, FieldsKept, WasInstallable;
      if WasInstallable(fd) {
        InstallKeeps(fd);
      } else {
        InstallBreaks(fd);
      }
    }

    /** A queued fdevent is torn out of the list, one registered elsewhere leaves a wrong table entry
        behind, one that is watched stays watched without its state saying so, and a foreign slot
        loses its occupant. */
    twostate lemma InstallBreaks(fd: int)
      requires old(Valid()) && FieldsKept(fd)
      requires fdTable[fd] != null && fdTable[fd] != listPending && InstallEffect(fdTable[fd], fd)
      requires !WasInstallable(fd)
      ensures !Valid()
    {
      hide RingOf, Distinct;
      ghost var new' := fdTable[fd];
      ghost var evicted := if old(SlotFree(fd)) then null else old(fdTable[fd]);
      if new' in old(live) && old(new'.state.pending) {
        assert new' in pending && !new'.state.pending;
      } else if new' in old(live) && old(new'.state.active) && old(new'.fd) != fd {
        assert fdTable[old(new'.fd)] == new';
      } else if new' in old(live) && old(new'.state.active) {
        assert fd in readFds || fd in writeFds || fd in errorFds;
        assert new'.state.watched == {};
      } else {
        assert evicted != new' && evicted in live && evicted.state.active && evicted.fd == fd;
      }
    }

    twostate lemma InstallKeeps(fd: int)
      requires old(Valid()) && FieldsKept(fd)
      requires fdTable[fd] != null && fdTable[fd] != listPending && InstallEffect(fdTable[fd], fd)
      requires WasInstallable(fd)
      ensures Valid()
    {
      hide RingOf, Distinct, InterestSets;
      InstallKeepsList(fd);
      InstallKeepsInterest(fd);
    }

    twostate lemma InstallKeepsList(fd: int)
      requires old(Valid()) && FieldsKept(fd)
      requires fdTable[fd] != null && fdTable[fd] != listPending && InstallEffect(fdTable[fd], fd)
      requires WasInstallable(fd)
      ensures ListShape()
    {
      hide InterestSets, TableShape;
      forall i | 0 <= i < |pending|
        ensures Linked(pending, i)
      {
        assert old(Linked(pending, i));
      }
    }

    twostate lemma InstallKeepsInterest(fd: int)
      requires old(Valid()) && FieldsKept(fd)
      requires fdTable[fd] != null && fdTable[fd] != listPending && InstallEffect(fdTable[fd], fd)
      requires WasInstallable(fd)
      ensures InterestSets()
    {
      hide ListShape, PendingMarks;
      assert Watches(readFds, FdeRead);
      assert Watches(writeFds, FdeWrite);
      assert Watches(errorFds, FdeError);
    }

    /** The first step of fdevent_remove: a pending fdevent leaves the list. */
    method Unqueue(fde: Fdevent)
      requires ListShape() && fde in live && (fde.state.pending <==> fde in pending)
      modifies `pending, `cancelled, listPending`next, listPending`prev, live`next, live`prev
      ensures ListShape() && Dropped(fde, fde in old(pending))
      ensures forall f :: f in live ==> (f in pending <==> f in old(pending) && f != fde)
    {
      if fde.state.pending {
        PlistRemove(fde);
        WithoutMembers(old(pending), cancelled);
      }
    }

    /** The middle step of fdevent_remove: an active fdevent leaves the interest sets and the table. */
    method Deactivate(fde: Fdevent) returns (outcome: Outcome)
      requires TableShape() && fde in live
      modifies `readFds, `writeFds, `errorFds, `selectN, fdTable
      ensures outcome == Running
      ensures 0 <= selectN <= fdTableMax == fdTable.Length
      ensures forall i :: 0 <= i < fdTableMax ==> fdTable[i] == if old(fdTable[i]) == fde then null else old(fdTable[i])
      ensures forall i :: selectN <= i < fdTableMax ==> fdTable[i] == null
      ensures readFds == old(readFds) - (if fde.state.active then {fde.fd} else {})
      ensures writeFds == old(writeFds) - (if fde.state.active then {fde.fd} else {})
      ensures errorFds == old(errorFds) - (if fde.state.active then {fde.fd} else {})
    {
      outcome := Running;
      if fde.state.active {
        Disconnect(fde);
        outcome := Unregister(fde);
      }
    }

    /** The statements of fdevent_remove. */
    method Withdraw(fde: Fdevent) returns (outcome: Outcome)
      requires ListShape() && TableShape() && fde in live && (fde.state.pending <==> fde in pending)
      modifies `readFds, `writeFds, `errorFds, `selectN, `pending, `cancelled, fdTable,
               fde`state, fde`events, listPending`next, listPending`prev, live`next, live`prev
      ensures outcome == Running && RemoveEffect(fde)
      ensures Dropped(fde, fde in old(pending))
    {
      hide ListShape, Without;
      Unqueue(fde);
      assert fdTable[..] == old(fdTable[..]);
      outcome := Deactivate(fde);
      fde.state := CLEAR;
      fde.events := {};
    }

    method Remove(fde: Fdevent) returns (outcome: Outcome)
      requires Valid() && fde in live
      modifies `readFds, `writeFds, `errorFds, `selectN, `pending, `cancelled, fdTable,
               fde`state, fde`events, listPending`next, listPending`prev, live`next, live`prev
      ensures outcome == Running && Valid()
      ensures RemoveEffect(fde)
      ensures Dropped(fde, fde in old(pending))
    {
      hide ListShape, TableShape, InterestSets, RemoveEffect, Dropped;
      outcome := Withdraw(fde);
      RemoveKeeps();
    }

    /** The net effect of fdevent_remove: the fdevent is blank, unregistered and unwatched. */
    twostate predicate RemoveEffect(fde: Fdevent)
      requires fde in old(live)
      reads this, fde, listPending, live, pending, fdTable
    {
      && live == old(live) && fdTable == old(fdTable) && fdTableMax == old(fdTableMax)
      && fdTableMax == fdTable.Length && 0 <= selectN <= fdTableMax
      && (forall f :: f in live ==> f.fd == old(f.fd))
      && (forall f :: f in live && f != fde ==> f.state == old(f.state) && f.events == old(f.events))
      && fde.state == CLEAR && fde.events == {}
      && (forall i :: 0 <= i < fdTableMax ==> fdTable[i] == if old(fdTable[i]) == fde then null else old(fdTable[i]))
      && (forall i :: selectN <= i < fdTableMax ==> fdTable[i] == null)
      && readFds == old(readFds) - (if old(fde.state.active) then {fde.fd} else {})
      && writeFds == old(writeFds) - (if old(fde.state.active) then {fde.fd} else {})
      && errorFds == old(errorFds) - (if old(fde.state.active) then {fde.fd} else {})
      && ListShape()
      && (forall f :: f in live ==> (f in pending <==> f in old(pending) && f != fde))
    }

    twostate lemma RemoveKeeps()
      requires old(Valid())
      requires exists fde :: fde in old(live) && RemoveEffect(fde)
      ensures Valid()
    {
      hide RingOf, Distinct;
      var fde :| fde in old(live) && RemoveEffect(fde);
      assert TableShape();
      assert Watches(readFds, FdeRead);
      assert Watches(writeFds, FdeWrite);
      assert Watches(errorFds, FdeError);
    }

    method Destroy(fde: Fdevent?) returns (outcome: Outcome)
      requires Valid() && (fde != null ==> fde in live)
      modifies `readFds, `writeFds, `errorFds, `selectN, `pending, `cancelled, fdTable,
               live`state, live`events, listPending`next, listPending`prev, live`next, live`prev
      ensures outcome == if fde != null && !old(fde.state.created) then Aborted(NotCreated) else Running
      ensures Valid()
      ensures if fde == null || outcome.Aborted? then
                pending == old(pending) && cancelled == old(cancelled) && unchanged(live`events)
              else RemoveEffect(fde) && Dropped(fde, fde in old(pending))
    {
      if fde == null {
        return Running;
      }
      if !fde.state.created {
        return Aborted(NotCreated);
      }
      outcome := Remove(fde);
    }

    /** The closing step of fdevent_set: a pending fdevent gives up the newly watched events
        and leaves the list when none is left. */
    method TrimQueued(fde: Fdevent, events: Events)
      requires ListShape() && fde in live
      requires fde.state.pending <==> fde in pending
      requires fde.events != {} <==> fde in pending
      modifies `pending, `cancelled, fde`state, fde`events, listPending`next, listPending`prev, live`next, live`prev
      ensures ListShape() && Dropped(fde, fde in old(pending) && fde !in pending)
      ensures fde.events == if fde in old(pending) then QueuedAfterSet(old(fde.events), events) else {}
      ensures fde.state == old(fde.state).(pending := fde.events != {})
      ensures forall f :: f in live ==> (f in pending <==> f in old(pending) && (f != fde || fde.events != {}))
    {
      if fde.state.pending {
        fde.events := QueuedAfterSet(fde.events, events);
        if fde.events == {} {
          PlistRemove(fde);
          fde.state := fde.state.(pending := false);
          WithoutMembers(old(pending), cancelled);
        }
      }
    }

    /** The list lost `fde`, as a cancellation, exactly if `dropped`; otherwise it is as it was. */
    twostate predicate Dropped(fde: Fdevent, dropped: bool)
      reads `pending, `cancelled
    {
      if dropped then
        cancelled == old(cancelled) + {fde} && pending == Without(old(pending), cancelled)
      else
        cancelled == old(cancelled) && pending == old(pending)
    }

    /** A comment in the code promises that no event is signalled that is no longer wanted. For a queued
        fdevent this is so exactly if all its queued events are wanted anew. Worse, if the watched events
        change at all, every queued event that is still wanted is lost: such events survive exactly if
        there is none. */
    method Set(fde: Fdevent, events: Events)
      requires Valid() && fde in live
      modifies `readFds, `writeFds, `errorFds, `pending, `cancelled, fde`state, fde`events,
               listPending`next, listPending`prev, live`next, live`prev
      ensures Valid()
      ensures fde.state == old(fde.state).(watched := events, pending := fde in pending)
      ensures fde.events == if old(fde.state.watched) != events && fde in old(pending)
                            then QueuedAfterSet(old(fde.events), events) else old(fde.events)
      ensures fde in old(pending) ==> (fde.events <= events <==> old(fde.events) <= events)
      ensures fde in old(pending) && old(fde.state.watched) != events ==>
                (old(fde.events) * events <= fde.events <==> old(fde.events) * events == {})
      ensures Dropped(fde, fde in old(pending) && fde !in pending)
    {
      hide ListShape, InterestSets, Without;
      if fde.state.watched == events {
        return;
      }
      if fde.state.active {
        Update(fde, events);
      }
      fde.state := fde.state.(watched := events);
      TrimQueued(fde, events);
      assert SetEffect(fde);
      SetKeeps();
    }

    /** The net effect of fdevent_set on one fdevent. */
    twostate predicate SetEffect(fde: Fdevent)
      requires fde in old(live)
      reads this, fde, listPending, live, pending, fdTable
    {
      && live == old(live) && fdTable == old(fdTable) && fdTable[..] == old(fdTable[..])
      && fdTableMax == old(fdTableMax) && selectN == old(selectN)
      && (forall f :: f in live ==> f.fd == old(f.fd) && f.state.active == old(f.state.active))
      && (forall f :: f in live && f != fde ==> f.state == old(f.state) && f.events == old(f.events))
      && (if fde.state.active then
            && readFds == Toggled(old(readFds), fde.fd, FdeRead in fde.state.watched)
            && writeFds == Toggled(old(writeFds), fde.fd, FdeWrite in fde.state.watched)
            && errorFds == Toggled(old(errorFds), fde.fd, FdeError in fde.state.watched)
          else
            readFds == old(readFds) && writeFds == old(writeFds) && errorFds == old(errorFds))
      && ListShape()
      && (forall f :: f in live && f != fde ==> (f in pending <==> f in old(pending)))
      && (fde.state.pending <==> fde in pending)
      && (fde.events != {} <==> fde in pending)
      && (fde in pending ==> fde.state.active)
    }

    twostate lemma SetKeeps()
      requires old(Valid())
      requires exists fde :: fde in old(live) && SetEffect(fde)
      ensures Valid()
    {
      hide ListShape, InterestSets;
      SetKeepsInterestSets();
    }

    twostate lemma SetKeepsInterestSets()
      requires old(Valid())
      requires exists fde :: fde in old(live) && SetEffect(fde)
      ensures InterestSets()
    {
      hide ListShape, PendingMarks;
      var fde :| fde in old(live) && SetEffect(fde);
      assert Watches(readFds, FdeRead);
      assert Watches(writeFds, FdeWrite);
      assert Watches(errorFds, FdeError);
    }

    method Add(fde: Fdevent, events: Events)
      requires Valid() && fde in live
      modifies `readFds, `writeFds, `errorFds, `pending, `cancelled, fde`state, fde`events,
               listPending`next, listPending`prev, live`next, live`prev
      ensures Valid() && Dropped(fde, fde in old(pending) && fde !in pending)
      ensures fde.state == old(fde.state).(watched := old(fde.state.watched) + events, pending := fde in pending)
      ensures fde.events == if old(fde.state.watched) + events != old(fde.state.watched) && fde in old(pending)
                            then QueuedAfterSet(old(fde.events), old(fde.state.watched) + events) else old(fde.events)
    {
      Set(fde, fde.state.watched + events);
    }

    method Del(fde: Fdevent, events: Events)
      requires Valid() && fde in live
      modifies `readFds, `writeFds, `errorFds, `pending, `cancelled, fde`state, fde`events,
               listPending`next, listPending`prev, live`next, live`prev
      ensures Valid() && Dropped(fde, fde in old(pending) && fde !in pending)
      ensures fde.state == old(fde.state).(watched := old(fde.state.watched) - events, pending := fde in pending)
      ensures fde.events == if old(fde.state.watched) - events != old(fde.state.watched) && fde in old(pending)
                            then QueuedAfterSet(old(fde.events), old(fde.state.watched) - events) else old(fde.events)
    {
      Set(fde, fde.state.watched - events);
    }

    /** The descriptors of `bad` that have a registered fdevent, added to `fds`, and their number. */
    method FdCheck(bad: set<int>, fds: set<int>) returns (marked: set<int>, n: nat)
      requires TableShape()
      ensures marked == fds + BadRegistered(bad) && n == |BadRegistered(bad)|
    {
      marked, n := fds, 0;
      ghost var found: set<int> := {};
      var i := 0;
      while i < selectN
        invariant 0 <= i <= selectN
        invariant forall j :: j in found <==> j in bad && 0 <= j < i && fdTable[j] != null
        invariant marked == fds + found && n == |found|
      {
        if fdTable[i] != null && i in bad {
          marked := marked + {i};
          n := n + 1;
          found := found + {i};
        }
        i := i + 1;
      }
      forall j
        ensures j in found <==> j in BadRegistered(bad)
      {
        assert 0 <= j < fdTable.Length && fdTable[j] != null ==> j < selectN;
      }
      SameMembers(found, BadRegistered(bad));
    }

    ghost function BadRegistered(bad: set<int>): (fds: set<int>)
      reads `fdTable, fdTable
      ensures forall i :: i in fds <==> i in bad && 0 <= i < fdTable.Length && fdTable[i] != null
    {
      set i | i in bad && 0 <= i < fdTable.Length && fdTable[i] != null
    }

    /** Nothing a registration consists of has changed. */
    twostate predicate RegistrationKept()
      reads `live, `fdTable, `fdTableMax, `selectN, `readFds, `writeFds, `errorFds, fdTable, live`fd, live`state
    {
      && live == old(live) && fdTable == old(fdTable) && fdTable[..] == old(fdTable[..])
      && fdTableMax == old(fdTableMax) && selectN == old(selectN)
      && readFds == old(readFds) && writeFds == old(writeFds) && errorFds == old(errorFds)
      && (forall f :: f in live ==> f.fd == old(f.fd) && f.state == old(f.state).(pending := f.state.pending))
    }

    twostate lemma RegistrationKeeps()
      requires old(TableShape()) && old(InterestSets()) && RegistrationKept()
      ensures TableShape() && InterestSets()
    {
      assert forall i :: 0 <= i < fdTable.Length ==> fdTable[..][i] == old(fdTable[..])[i];
      assert Watches(readFds, FdeRead);
      assert Watches(writeFds, FdeWrite);
      assert Watches(errorFds, FdeError);
    }

    /** Adds `events` to a registered fdevent and queues it unless it is queued already. */
    method MarkReady(fde: Fdevent, events: Events)
      requires Valid() && fde in live && fde.state.active && events != {}
      modifies `pending, `cancelled, fde`state, fde`events, listPending`next, listPending`prev, live`next, live`prev
      ensures Valid()
      ensures fde.events == old(fde.events) + events && fde.state == old(fde.state).(pending := true)
      ensures pending == if old(fde.state.pending) then old(pending) else old(pending) + [fde]
    {
      hide ListShape, TableShape, InterestSets;
      fde.events := fde.events + events;
      if !fde.state.pending {
        fde.state := fde.state.(pending := true);
        PlistEnqueue(fde);
      }
      RegistrationKeeps();
    }

    /** The state and event words of every live fdevent. */
    ghost function Snapshot(): map<Fdevent, (State, Events)>
      reads `live, live`state, live`events
    {
      map f | f in live :: (f.state, f.events)
    }

    /** Since `was` was taken, every registered fdevent below `hi` with ready events has received
        exactly those and is pending; the other fdevents are as they were. */
    ghost predicate Marked(was: map<Fdevent, (State, Events)>, rfd: set<int>, wfd: set<int>, efd: set<int>, hi: int)
      reads `live, live`fd, live`state, live`events
    {
      forall f :: f in live ==>
        && f in was
        && if f.state.active && f.fd < hi && ReadyBits(f.fd, rfd, wfd, efd) != {} then
             f.events == was[f].1 + ReadyBits(f.fd, rfd, wfd, efd) && f.state == was[f].0.(pending := true)
           else
             f.events == was[f].1 && f.state == was[f].0
    }

    lemma MarkedStep(was: map<Fdevent, (State, Events)>, before: map<Fdevent, (State, Events)>,
                     rfd: set<int>, wfd: set<int>, efd: set<int>, i: nat)
      requires Valid() && i < fdTable.Length
      requires forall f :: f in live ==>
        && f in was && f in before
        && before[f] == (if f.state.active && f.fd < i && ReadyBits(f.fd, rfd, wfd, efd) != {} then
                           (was[f].0.(pending := true), was[f].1 + ReadyBits(f.fd, rfd, wfd, efd))
                         else was[f])
      requires forall f :: f in live ==>
        (f.state, f.events) == if f == fdTable[i] && ReadyBits(i, rfd, wfd, efd) != {} then
                                 (before[f].0.(pending := true), before[f].1 + ReadyBits(i, rfd, wfd, efd))
                               else before[f]
      ensures Marked(was, rfd, wfd, efd, i + 1)
    {
    }

    ghost predicate AllRegistered(fds: set<int>)
      reads `fdTable, fdTable
    {
      forall i :: i in fds ==> 0 <= i < fdTable.Length && fdTable[i] != null
    }

    /** Hands the events of descriptor `i`, if it has any, to its registered fdevent. */
    method Deliver(i: int, events: Events) returns (outcome: Outcome)
      requires Valid() && 0 <= i < fdTable.Length
      modifies `pending, `cancelled, live`state, live`events, listPending`next, listPending`prev, live`next, live`prev
      ensures outcome == if events != {} && fdTable[i] == null then Aborted(MissingFde) else Running
      ensures Valid()
      ensures forall f :: f in live ==>
                (f.state, f.events) == if f == fdTable[i] && events != {} then
                                         (old(f.state).(pending := true), old(f.events) + events)
                                       else (old(f.state), old(f.events))
      ensures events == {} ==> pending == old(pending)
      ensures events != {} && fdTable[i] != null && fdTable[i] in live ==>
                pending == if old(fdTable[i].state.pending) then old(pending) else old(pending) + [fdTable[i]]
    {
      if events != {} {
        var fde := fdTable[i];
        if fde == null {
          return Aborted(MissingFde);
        }
        MarkReady(fde, events);
      }
      return Running;
    }

    /** The loop of fdevent_process has dealt with the descriptors below `i`: it started from the
        words `was` and the list `queued`. */
    ghost predicate Progress(was: map<Fdevent, (State, Events)>, queued: seq<Fdevent>,
                             rfd: set<int>, wfd: set<int>, efd: set<int>, i: nat)
      requires AllRegistered(rfd) && AllRegistered(wfd) && AllRegistered(efd)
      reads `live, `pending, `fdTable, fdTable, live`fd, live`state, live`events
    {
      && i <= fdTable.Length
      && Marked(was, rfd, wfd, efd, i)
      && (forall f :: f in live ==> (was[f].0.pending <==> f in queued))
      && pending == queued + NewlyReady(fdTable[..], rfd, wfd, efd, queued, i)
    }

    /** One turn of the closing loop of fdevent_process. */
    method MarkOne(i: int, n: int, rfd: set<int>, wfd: set<int>, efd: set<int>,
                   ghost rest: (set<int>, set<int>, set<int>),
                   ghost was: map<Fdevent, (State, Events)>, ghost queued: seq<Fdevent>)
      returns (outcome: Outcome, left: int, ghost rest': (set<int>, set<int>, set<int>))
      requires Valid() && 0 <= i < fdTable.Length && AllRegistered(rfd) && AllRegistered(wfd) && AllRegistered(efd)
      requires Rest(rest.0, rfd, i) && Rest(rest.1, wfd, i) && Rest(rest.2, efd, i)
      requires n == |rest.0| + |rest.1| + |rest.2|
      requires Progress(was, queued, rfd, wfd, efd, i)
      modifies `pending, `cancelled, live`state, live`events, listPending`next, listPending`prev, live`next, live`prev
      ensures outcome == Running && Valid()
      ensures Rest(rest'.0, rfd, i + 1) && Rest(rest'.1, wfd, i + 1) && Rest(rest'.2, efd, i + 1)
      ensures left == |rest'.0| + |rest'.1| + |rest'.2|
      ensures Progress(was, queued, rfd, wfd, efd, i + 1)
    {
      hide Consistent, NewlyReady, ReadyBits, Rest;
      Occupant(i);
      ghost var before := Snapshot();
      var events;
      events, left, rest' := Probe(i, n, rfd, wfd, efd, rest);
      ReadyBitsEmpty(i, rfd, wfd, efd);
      outcome := Deliver(i, events);
      MarkedStep(was, before, rfd, wfd, efd, i);
      QueuedStep(was, queued, old(pending), rfd, wfd, efd, i);
    }

    lemma QueuedStep(was: map<Fdevent, (State, Events)>, queued: seq<Fdevent>, before: seq<Fdevent>,
                     rfd: set<int>, wfd: set<int>, efd: set<int>, i: nat)
      requires i < fdTable.Length && AllRegistered(rfd) && AllRegistered(wfd) && AllRegistered(efd)
      requires Valid()
      requires before == queued + NewlyReady(fdTable[..], rfd, wfd, efd, queued, i)
      requires forall f :: f in live ==> f in was && (was[f].0.pending <==> f in queued)
      requires i !in rfd && i !in wfd && i !in efd ==> pending == before
      requires i in rfd || i in wfd || i in efd ==>
                 pending == if was[fdTable[i]].0.pending then before else before + [fdTable[i]]
      ensures pending == queued + NewlyReady(fdTable[..], rfd, wfd, efd, queued, i + 1)
    {
      NewlyReadyStep(fdTable[..], rfd, wfd, efd, queued, i);
    }

    /** The closing loop of fdevent_process, which stops as soon as `bits` bits have been seen. */
    method MarkAll(bits: int, rfd: set<int>, wfd: set<int>, efd: set<int>) returns (outcome: Outcome)
      requires Valid() && AllRegistered(rfd) && AllRegistered(wfd) && AllRegistered(efd)
      requires bits == |rfd| + |wfd| + |efd|
      modifies `pending, `cancelled, live`state, live`events, listPending`next, listPending`prev, live`next, live`prev
      ensures outcome == Running && Valid()
      ensures Progress(old(Snapshot()), old(pending), rfd, wfd, efd, fdTable.Length)
    {
      hide *;
      ghost var was, queued := Snapshot(), pending;
      ghost var rest := (rfd, wfd, efd);
      ProgressStart(rfd, wfd, efd);
      var n, i := bits, 0;
      outcome := Running;
      while i < selectN && n > 0
        invariant 0 <= i <= selectN <= fdTable.Length && outcome == Running
        invariant Rest(rest.0, rfd, i) && Rest(rest.1, wfd, i) && Rest(rest.2, efd, i)
        invariant n == |rest.0| + |rest.1| + |rest.2|
        invariant AllRegistered(rfd) && AllRegistered(wfd) && AllRegistered(efd)
        invariant Valid() && Progress(was, queued, rfd, wfd, efd, i)
      {
        outcome, n, rest := MarkOne(i, n, rfd, wfd, efd, rest, was, queued);
        i := i + 1;
      }
      ProgressEnd(was, queued, rfd, wfd, efd, i, rest);
    }

    lemma ProgressStart(rfd: set<int>, wfd: set<int>, efd: set<int>)
      requires Valid() && AllRegistered(rfd) && AllRegistered(wfd) && AllRegistered(efd)
      ensures 0 <= selectN <= fdTable.Length
      ensures Rest(rfd, rfd, 0) && Rest(wfd, wfd, 0) && Rest(efd, efd, 0)
      ensures Progress(Snapshot(), pending, rfd, wfd, efd, 0)
    {
    }

    /** When the loop stops, because of `n` or because of `selectN`, no bit is left unseen. */
    lemma ProgressEnd(was: map<Fdevent, (State, Events)>, queued: seq<Fdevent>,
                      rfd: set<int>, wfd: set<int>, efd: set<int>, i: nat, rest: (set<int>, set<int>, set<int>))
      requires Valid() && AllRegistered(rfd) && AllRegistered(wfd) && AllRegistered(efd)
      requires Progress(was, queued, rfd, wfd, efd, i)
      requires Rest(rest.0, rfd, i) && Rest(rest.1, wfd, i) && Rest(rest.2, efd, i)
      requires i >= selectN || |rest.0| + |rest.1| + |rest.2| <= 0
      ensures Progress(was, queued, rfd, wfd, efd, fdTable.Length)
    {
      assert i < selectN ==> rest.0 == {} && rest.1 == {} && rest.2 == {};
      assert forall j :: i <= j < fdTable.Length ==> j !in rfd && j !in wfd && j !in efd;
      NewlyReadyTail(fdTable[..], rfd, wfd, efd, queued, i, fdTable.Length);
      forall f | f in live && f.state.active && i <= f.fd
        ensures ReadyBits(f.fd, rfd, wfd, efd) == {}
      {
        ReadyBitsEmpty(f.fd, rfd, wfd, efd);
      }
    }

    /** What select may return: subsets of the sets it was given and their number of bits. */
    predicate SelectContract(selected: Selected)
      reads `readFds, `writeFds, `errorFds
    {
      selected.Ready? ==>
        && selected.rfd <= readFds && selected.wfd <= writeFds && selected.efd <= errorFds
        && selected.n == |selected.rfd| + |selected.wfd| + |selected.efd|
    }

    /** The descriptors fdevent_process takes to be readable: after EBADF, or when nothing is
        ready, those whose descriptor has gone bad. */
    ghost function Readable(selected: Selected, bad: set<int>): set<int>
      reads `fdTable, fdTable
    {
      match selected
      case Ready(n, rfd, _, _) => if n <= 0 then BadRegistered(bad) else rfd
      case Failed(errno) => if errno == EBADF then BadRegistered(bad) else {}
    }

    ghost function Writable(selected: Selected): set<int> {
      if selected.Ready? then selected.wfd else {}
    }

    ghost function Erring(selected: Selected): set<int> {
      if selected.Ready? then selected.efd else {}
    }

    /** One round of fdevent_process; `bad` are the descriptors on which fcntl fails. */
    method Process(selected: Selected, bad: set<int>) returns (outcome: Outcome)
      requires Valid() && SelectContract(selected)
      modifies `pending, `cancelled, live`state, live`events, listPending`next, listPending`prev, live`next, live`prev
      ensures outcome == Running && Valid()
      ensures var readable := old(Readable(selected, bad));
              && AllRegistered(readable) && AllRegistered(Writable(selected)) && AllRegistered(Erring(selected))
              && Progress(old(Snapshot()), old(pending), readable, Writable(selected), Erring(selected), fdTable.Length)
    {
      hide *;
      if selected.Failed? && selected.errno != EBADF {
        NothingReported(selected, bad);
        return Running;
      }
      var n, rfd, wfd, efd := Reported(selected, bad);
      outcome := MarkAll(n, rfd, wfd, efd);
    }

    lemma NothingReported(selected: Selected, bad: set<int>)
      requires Valid() && selected.Failed? && selected.errno != EBADF
      ensures AllRegistered(Readable(selected, bad)) && AllRegistered(Writable(selected))
                && AllRegistered(Erring(selected))
      ensures Progress(Snapshot(), pending,
                Readable(selected, bad), Writable(selected), Erring(selected), fdTable.Length)
    {
      ProgressStart({}, {}, {});
      ProgressEnd(Snapshot(), pending, {}, {}, {}, 0, ({}, {}, {}));
    }

    /** The first half of fdevent_process: the sets to act on, falling back to fdevent_fd_check. */
    method Reported(selected: Selected, bad: set<int>) returns (n: int, rfd: set<int>, wfd: set<int>, efd: set<int>)
      requires Valid() && SelectContract(selected)
      requires selected.Failed? ==> selected.errno == EBADF
      ensures rfd == Readable(selected, bad) && wfd == Writable(selected) && efd == Erring(selected)
      ensures n == |rfd| + |wfd| + |efd|
      ensures AllRegistered(rfd) && AllRegistered(wfd) && AllRegistered(efd)
    {
      n, rfd, wfd, efd := 0, {}, {}, {};
      if selected.Ready? {
        n, rfd, wfd, efd := selected.n, selected.rfd, selected.wfd, selected.efd;
      }
      if n <= 0 {
        rfd, n := FdCheck(bad, rfd);
      }
    }

    lemma ShrunkNow()
      requires Valid()
      ensures forall f :: f in pending ==> f !in cancelled
      ensures listPending !in live
      ensures Shrunk(pending, cancelled, pending, cancelled)
    {
      ShrunkSame(pending, cancelled);
    }

    lemma DropShrinks(p0: seq<Fdevent>, c0: set<Fdevent>, fde: Fdevent, dropped: bool)
      requires forall f :: f in p0 ==> f !in c0
      requires dropped ==> fde in p0
      requires if dropped then cancelled == c0 + {fde} && pending == Without(p0, cancelled)
               else cancelled == c0 && pending == p0
      ensures Shrunk(p0, c0, pending, cancelled)
    {
      if !dropped {
        ShrunkSame(p0, c0);
      }
    }

    /** The CREATED bit is no part of the invariant. */
    twostate lemma CreatedKeeps()
      requires old(Valid()) && unchanged(`live, `pending, `cancelled, `fdTable, `fdTableMax, `selectN)
      requires unchanged(`readFds, `writeFds, `errorFds, listPending, fdTable)
      requires forall f :: f in live ==>
        && f.state == old(f.state).(created := f.state.created)
        && f.next == old(f.next) && f.prev == old(f.prev) && f.fd == old(f.fd) && f.events == old(f.events)
      ensures Valid()
    {
      hide Distinct;
      forall i | 0 <= i < |pending|
        ensures Linked(pending, i)
      {
        assert old(Linked(pending, i));
      }
      assert Watches(readFds, FdeRead);
      assert Watches(writeFds, FdeWrite);
      assert Watches(errorFds, FdeError);
    }

    /** fdevent_create: fresh storage, installed and marked CREATED. */
    method Create(fd: int, handler: Handler) returns (outcome: Outcome, fde: Fdevent)
      requires Valid()
      modifies `live, `fdTable, `fdTableMax, `selectN, `readFds, `writeFds, `errorFds, fdTable
      ensures fresh(fde) && live == old(live) + {fde}
      ensures outcome == if BadFd(fd, old(fdTableMax)) then Aborted(BogusFd) else Running
      ensures fdTable == old(fdTable) || fresh(fdTable)
      ensures outcome.Running? ==> (Valid() <==> old(SlotFree(fd)))
      ensures outcome.Running? ==>
                && 0 <= fd < fdTable.Length && fdTable[fd] == fde
                && fde.state == CLEAR.(active := true, created := true) && fde.events == {}
                && fde.fd == fd && fde.handler == handler
    {
      fde := new Fdevent;
      outcome := Install(fde, fd, handler);
      label installed:
      fde.state := fde.state.(created := true);
      if outcome.Running? {
        if old(SlotFree(fd)) {
          CreatedKeeps@installed();
        } else {
          ghost var evicted := old(fdTable[fd]);
          assert evicted in live && evicted.state.active && fdTable[evicted.fd] == fde;
        }
      }
    }

    /** The list has only lost fdevents, and those on it only events; nothing was called or read. */
    twostate predicate Lessened()
      reads `pending, `cancelled, `trace, `notices, pending`events
    {
      && trace == old(trace) && notices == old(notices)
      && Shrunk(old(pending), old(cancelled), pending, cancelled)
      && forall f :: f in pending ==> f in old(pending) && f.events <= old(f.events)
    }

    twostate lemma LessenedIsNested()
      requires Lessened()
      ensures Nested(old(Sight()), Sight())
    {
      NestedQuiet(old(Sight()), Sight());
    }

    /** An install by a handler, on an fdevent it knows or, for null, on storage of its own. It is made
        where it aborts or, by `Install`, leaves the reactor consistent. */
    method PerformInstall(target: Fdevent?, fd: int, handler: Handler) returns (outcome: Outcome)
      requires Valid() && (target != null ==> target in live)
      modifies this, target, fdTable
      ensures outcome.Running? ==> Valid()
      ensures Grown() && Lessened()
      ensures outcome.Aborted? ==> outcome.reason == BogusFd
    {
      hide Consistent, Shrunk, InstallEffect;
      outcome := Running;
      ShrunkNow();
      if target == null {
        if SlotFree(fd) || BadFd(fd, fdTableMax) {
          var own := new Fdevent;
          outcome := Install(own, fd, handler);
        }
      } else if Installable(target, fd) || BadFd(fd, fdTableMax) {
        outcome := Install(target, fd, handler);
      }
    }

    /** A call on an fdevent that has been installed. */
    method PerformOn(call: ApiCall, target: Fdevent) returns (outcome: Outcome)
      requires Valid() && target in live && !call.CallInstall? && !call.CallCreate?
      modifies this, live, fdTable, listPending
      ensures outcome.Running? ==> Valid()
      ensures Grown() && Lessened()
      ensures outcome.Aborted? ==> outcome.reason == NotCreated
    {
      hide Consistent, Shrunk, Without;
      outcome := Running;
      ShrunkNow();
      ghost var dropped;
      match call {
        case CallRemove =>
          outcome := Remove(target);
          dropped := target in old(pending);
        case CallDestroy =>
          outcome := Destroy(target);
          dropped := outcome.Running? && target in old(pending);
        case CallSet(events) =>
          Set(target, events);
          dropped := target in old(pending) && target !in pending;
        case CallAdd(events) =>
          Add(target, events);
          dropped := target in old(pending) && target !in pending;
        case CallDel(events) =>
          Del(target, events);
          dropped := target in old(pending) && target !in pending;
      }
      DropShrinks(old(pending), old(cancelled), target, dropped);
      ShrunkMembers(old(pending), old(cancelled), pending, cancelled);
    }

    /** One call of the public interface. */
    method Perform(call: ApiCall, target: Fdevent?) returns (outcome: Outcome)
      requires Valid()
      modifies this, live, fdTable, listPending
      ensures outcome.Running? ==> Valid()
      ensures Grown() && Shrunk(old(pending), old(cancelled), pending, cancelled)
      ensures trace == old(trace) && notices == old(notices) && Nested(old(Sight()), Sight())
      ensures outcome.Aborted? ==> outcome.reason in {BogusFd, NotCreated}
    {
      hide Consistent, Shrunk, Nested, Sight;
      outcome := Running;
      ShrunkNow();
      if call.CallCreate? {
        if SlotFree(call.fd) || BadFd(call.fd, fdTableMax) {
          var fde;
          outcome, fde := Create(call.fd, call.handler);
        }
      } else if target == null || target in live {
        if call.CallInstall? {
          outcome := PerformInstall(target, call.fd, call.handler);
        } else if target != null {
          outcome := PerformOn(call, target);
        }
      }
      LessenedIsNested();
    }

    /** Storage is only ever added: new fdevents and, when the table grew, a new table. */
    twostate predicate Grown()
      reads `live, `fdTable
    {
      && old(live) <= live && fresh(live - old(live))
      && (fdTable == old(fdTable) || fresh(fdTable))
    }

    ghost function EventsOn(p: seq<Fdevent>): map<Fdevent, Events>
      reads p`events
    {
      map f | f in p :: f.events
    }

    /** What handlers leave to be seen. */
    ghost function Sight(): View<Fdevent>
      reads `trace, `notices, `pending, pending`events
    {
      View(trace, notices, EventsOn(pending))
    }

    /** What a handler supplied by the user may do: any finite sequence of interface calls. */
    method UserCallback() returns (outcome: Outcome)
      requires Valid()
      modifies this, live, fdTable, listPending
      ensures outcome.Running? ==> Valid()
      ensures Grown() && Shrunk(old(pending), old(cancelled), pending, cancelled)
      ensures trace == old(trace) && notices == old(notices) && Nested(old(Sight()), Sight())
      ensures outcome.Aborted? ==> outcome.reason in {BogusFd, NotCreated}
    {
      hide Consistent, Shrunk, Nested, Sight;
      outcome := Running;
      ShrunkNow();
      NestedQuiet(Sight(), Sight());
      var steps: nat := *;
      while steps > 0 && outcome.Running?
        invariant outcome.Running? ==> Valid()
        invariant Grown() && Shrunk(old(pending), old(cancelled), pending, cancelled)
        invariant trace == old(trace) && notices == old(notices) && Nested(old(Sight()), Sight())
        invariant outcome.Aborted? ==> outcome.reason in {BogusFd, NotCreated}
      {
        var call: ApiCall := *;
        var target: Fdevent? := *;
        ghost var p, c, v := pending, cancelled, Sight();
        outcome := Perform(call, target);
        ShrunkTwice(old(pending), old(cancelled), p, c, pending, cancelled);
        NestedTwice(old(Sight()), v, Sight());
        steps := steps - 1;
      }
    }

    /** The view just after a call has been recorded. */
    ghost function Recorded(v: View<Fdevent>, e: Entry<Fdevent>): View<Fdevent> {
      View(v.trace + [e], v.notices, v.queued)
    }

    ghost function Call(fde: Fdevent, handler: Handler, events: Events, forced: bool): Entry<Fdevent> {
      if forced then Forced(fde, handler, events) else Queued(fde, handler, events)
    }

    /** What has happened since a call of `handler` with `events` was recorded behind `was`: which handler
        ran can be seen from what it did. */
    twostate predicate Ran(was: seq<Entry<Fdevent>>, handler: Handler, events: Events, outcome: Outcome)
      reads `trace, `notices
    {
      && |was| < |trace| && Paired(trace, |was|)
      && (outcome.Running? ==> Closed(trace, |was|))
      && (outcome == Aborted(PipeRead) ==> Reads(trace[|trace| - 1]))
      && (handler.UserFunc? || FdeRead !in events ==> |trace| == |was| + 1 && notices == old(notices))
      && (handler.UserFunc? ==> outcome != Aborted(PipeRead))
      && (handler.SubprocFunc? && FdeRead !in events ==> outcome == Running)
      && (handler.SubprocFunc? && FdeRead in events ==>
            if old(notices) == [] then |trace| == |was| + 1 && outcome == Aborted(PipeRead)
            else |trace| > |was| + 1 && trace[|was| + 1].Told? && trace[|was| + 1].notice == old(notices)[0])
    }

    /** fdevent_call_fdfunc, on the fdevent that is between dequeue and dispatch: its handler is
        given all the events it holds, and it holds none any more. */
    method CallFdFunc(fde: Fdevent, ghost forced: bool) returns (outcome: Outcome, given: Events)
      requires Consistent(fde)
      modifies this, live, fdTable, listPending
      ensures given == old(fde.events) && given != {}
      ensures outcome.Running? ==> Valid()
      ensures Grown() && Shrunk(old(pending), old(cancelled), pending, cancelled) && |notices| <= |old(notices)|
      ensures Nested(Recorded(old(Sight()), Call(fde, old(fde.handler), given, forced)), Sight())
      ensures Ran(old(trace), old(fde.handler), given, outcome)
      ensures outcome.Aborted? ==> outcome.reason in {BogusFd, NotCreated, PipeRead}
      decreases |notices|, 3
    {
      hide Nested, Paired, Reads, Closed;
      var events := fde.events;
      fde.events := {};
      if !fde.state.pending {
        assert false;
        return Running, events;
      }
      fde.state := fde.state.(pending := false);
      RegistrationKeeps();
      assert Sight() == old(Sight());
      outcome, given := Invoke(fde, events, forced);
    }

    /** The call through the function pointer of a registered fdevent. */
    method Invoke(fde: Fdevent, events: Events, ghost forced: bool) returns (outcome: Outcome, given: Events)
      requires Valid() && fde in live && fde.state.active
      modifies this, live, fdTable, listPending
      ensures given == events
      ensures outcome.Running? ==> Valid()
      ensures Grown() && Shrunk(old(pending), old(cancelled), pending, cancelled) && |notices| <= |old(notices)|
      ensures Nested(Recorded(old(Sight()), Call(fde, old(fde.handler), events, forced)), Sight())
      ensures Ran(old(trace), old(fde.handler), events, outcome)
      ensures old(fde.handler).SubprocFunc? && FdeRead !in events ==>
                fde.state.watched == old(fde.state.watched) + {FdeRead}
      ensures outcome.Aborted? ==> outcome.reason in {BogusFd, NotCreated, PipeRead}
      decreases |notices|, 2
    {
      hide Consistent, Nested, Shrunk, Paired;
      ghost var was, call := trace, Call(fde, fde.handler, events, forced);
      OwnSlot(fde);
      trace := trace + [call];
      given := events;
      assert Sight() == Recorded(old(Sight()), call);
      match fde.handler {
        case UserFunc =>
          outcome := UserCallback();
          NothingAdded(trace);
        case SubprocFunc =>
          outcome := SubprocEvent(fde.fd, events);
      }
      NestedGrows(Recorded(old(Sight()), call), Sight());
      PairedCall(was, call, trace);
    }

    lemma NothingAdded(t: seq<Entry<Fdevent>>)
      ensures Paired(t, |t|)
    {
    }

    /** An active fdevent stands in the table at its own descriptor. */
    lemma OwnSlot(fde: Fdevent)
      requires Valid() && fde in live && fde.state.active
      ensures fdTableMax == fdTable.Length && 0 <= fde.fd < fdTable.Length && fdTable[fde.fd] == fde
    {
    }

    /** fdevent_subproc_event_func: a notification names a descriptor whose process has exited;
        its fdevent is dispatched at once as readable unless it is queued already. */
    method SubprocEvent(fd: int, events: Events) returns (outcome: Outcome)
      requires Valid() && 0 <= fd < fdTable.Length && fdTableMax == fdTable.Length && fdTable[fd] != null
      requires FdeRead in events ==> trace != [] && Reads(trace[|trace| - 1])
      modifies this, live, fdTable, listPending
      ensures FdeRead in events ==> HasRead(outcome)
      ensures FdeRead in events && outcome.Running? ==> |notices| < |old(notices)|
      ensures FdeRead !in events ==> outcome == Running && notices == old(notices) && trace == old(trace)
                                     && fdTable == old(fdTable) && fdTable[fd] == old(fdTable[fd])
                                     && fdTable[fd].state.watched == old(fdTable[fd].state.watched) + {FdeRead}
      ensures Paired(trace, |old(trace)|)
      ensures outcome.Running? ==> Valid()
      ensures Grown() && Shrunk(old(pending), old(cancelled), pending, cancelled) && |notices| <= |old(notices)|
      ensures Nested(old(Sight()), Sight())
      ensures outcome.Aborted? ==> outcome.reason in {BogusFd, NotCreated, PipeRead}
      decreases |notices|, 1
    {
      hide Consistent, Shrunk, Nested, Sight, Paired, Reads;
      ShrunkNow();
      LessenedIsNested();
      if fd < 0 || fd >= fdTableMax {
        return Aborted(SubprocRange);
      }
      Occupant(fd);
      var fde := fdTable[fd];
      Add(fde, {FdeRead});
      DropShrinks(old(pending), old(cancelled), fde, fde in old(pending) && fde !in pending);
      ShrunkMembers(old(pending), old(cancelled), pending, cancelled);
      LessenedIsNested();
      NothingAdded(trace);
      outcome := Running;
      if FdeRead in events {
        ghost var p, c, v := pending, cancelled, Sight();
        outcome := ReadNotice();
        ShrunkTwice(old(pending), old(cancelled), p, c, pending, cancelled);
        NestedTwice(old(Sight()), v, Sight());
      }
    }

    /** The next notification has been read, if there is one; otherwise there is no going on. */
    twostate predicate HasRead(outcome: Outcome)
      reads `trace
    {
      && (if old(notices) == [] then outcome == Aborted(PipeRead) && trace == old(trace)
          else |trace| > |old(trace)| && trace[|old(trace)|].Told? && trace[|old(trace)|].notice == old(notices)[0])
      && (outcome.Running? ==> Closed(trace, |old(trace)|))
      && (outcome == Aborted(PipeRead) ==> trace != [] && Reads(trace[|trace| - 1]))
    }

    /** The fdevent registered at a descriptor, if any. */
    ghost function At(fd: int): (r: seq<Fdevent>)
      reads this, fdTable
    {
      if 0 <= fd < fdTable.Length && fdTable[fd] != null then [fdTable[fd]] else []
    }

    /** How the next notification will be recorded. */
    ghost function NextTold(): Entry<Fdevent>
      requires notices != []
      reads this, fdTable, live
    {
      var occupant := At(notices[0].fd);
      Told(notices[0], occupant, occupant != [] && occupant[0] in live && occupant[0].state.pending)
    }

    /** The part of the notification handler that consumes one notification. It calls the handler of the
        fdevent registered there exactly if that is not queued and nothing is left to read. */
    method ReadNotice() returns (outcome: Outcome)
      requires Valid() && trace != [] && Reads(trace[|trace| - 1])
      modifies this, live, fdTable, listPending
      ensures outcome.Running? ==> Valid()
      ensures old(notices) == [] ==> outcome == Aborted(PipeRead) && trace == old(trace)
      ensures old(notices) != [] ==>
                var told := old(NextTold());
                if Forces(told) then
                  old(trace) + [told, Forced(told.occupant[0], old(told.occupant[0].handler), {FdeRead})] <= trace
                else trace == old(trace) + [told] && outcome == Running && pending == old(pending)
      ensures Paired(trace, |old(trace)|) && HasRead(outcome)
      ensures outcome.Running? ==> |notices| < |old(notices)|
      ensures Grown() && Shrunk(old(pending), old(cancelled), pending, cancelled) && |notices| <= |old(notices)|
      ensures Nested(old(Sight()), Sight())
      ensures outcome.Aborted? ==> outcome.reason in {BogusFd, NotCreated, PipeRead}
      decreases |notices|, 0
    {
      hide Consistent, Shrunk, Nested, Reads, Paired;
      ShrunkNow();
      NestedQuiet(Sight(), Sight());
      NothingAdded(trace);
      if notices == [] {
        return Aborted(PipeRead);
      }
      var notice := notices[0];
      ghost var v, told := Sight(), NextTold();
      Occupant(notice.fd);
      notices, trace := notices[1..], trace + [told];
      ToldPaired(v.trace, told);
      outcome := Running;
      if 0 <= notice.fd < fdTableMax {
        var subproc := fdTable[notice.fd];
        if subproc != null && subproc.fd == notice.fd {
          subproc.forceEof := true;
          if notice.unread == 0 {
            ghost var forced := !subproc.state.pending;
            ghost var e := Forced(subproc, subproc.handler, {FdeRead});
            assert Sight() == View(v.trace + [told], v.notices[1..], v.queued);
            outcome := ForceRead(subproc);
            if forced {
              ForcedBehind(v, told, e);
            }
          }
        }
      }
      if !Forces(told) {
        NestedTold(v, told, Sight());
      }
    }

    /** A notification that forces a call, and what that leaves behind it. */
    lemma ForcedBehind(v: View<Fdevent>, told: Entry<Fdevent>, e: Entry<Fdevent>)
      requires v.notices != [] && Forces(told) && told.notice == v.notices[0]
      requires e.Forced? && told.occupant == [e.fde] && e.fde !in v.queued && FdeRead in e.events
      requires Nested(View(v.trace + [told] + [e], v.notices[1..], v.queued), Sight())
      requires Paired(v.trace + [told], |v.trace|) && Closed(v.trace + [told], |v.trace|)
      requires Paired(trace, |v.trace| + 1)
      ensures Nested(v, Sight()) && v.trace + [told, e] <= trace && |Sight().notices| < |v.notices|
      ensures Paired(trace, |v.trace|) && (Closed(trace, |v.trace| + 1) ==> Closed(trace, |v.trace|))
    {
      hide Nested, Paired, Closed, Forces;
      NestedGrows(View(v.trace + [told] + [e], v.notices[1..], v.queued), Sight());
      NestedForced(v, told, e, Sight());
      assert v.trace + [told, e] == v.trace + [told] + [e];
      PairedTwice(v.trace + [told], trace, |v.trace|);
    }

    lemma ToldPaired(t: seq<Entry<Fdevent>>, e: Entry<Fdevent>)
      requires t != [] && Reads(t[|t| - 1]) && e.Told?
      ensures Paired(t + [e], |t|) && Closed(t + [e], |t|) && !Reads(e)
    {
    }

    lemma Occupant(i: int)
      requires Valid()
      ensures fdTableMax == fdTable.Length
      ensures 0 <= i < fdTableMax && fdTable[i] != null ==>
                && fdTable[i] in live && fdTable[i].fd == i && fdTable[i].state.active
                && (fdTable[i].state.pending <==> fdTable[i] in pending)
    {
    }

    /** Dispatches a registered fdevent as readable, at once if it is not queued. */
    method ForceRead(fde: Fdevent) returns (outcome: Outcome)
      requires Valid() && fde in live && fde.state.active
      modifies this, live, fdTable, listPending
      ensures old(fde.state.pending) ==>
                && outcome == Running && pending == old(pending) && notices == old(notices) && trace == old(trace)
                && fde.events == old(fde.events) + {FdeRead}
                && forall f :: f in pending && f != fde ==> f.events == old(f.events)
      ensures !old(fde.state.pending) ==>
                && Nested(Recorded(old(Sight()), Forced(fde, old(fde.handler), {FdeRead})), Sight())
                && Paired(trace, |old(trace)|) && (outcome.Running? ==> Closed(trace, |old(trace)|))
                && (outcome == Aborted(PipeRead) ==> Reads(trace[|trace| - 1]))
      ensures outcome.Running? ==> Valid()
      ensures Grown() && Shrunk(old(pending), old(cancelled), pending, cancelled) && |notices| <= |old(notices)|
      ensures outcome.Aborted? ==> outcome.reason in {BogusFd, NotCreated, PipeRead}
      decreases |notices|, 4
    {
      hide RingOf, Distinct, Watches, Without, Shrunk, Nested, Paired, Reads, Closed;
      ShrunkNow();
      fde.events := fde.events + {FdeRead};
      outcome := Running;
      if fde.state.pending {
        RegistrationKeeps();
      } else {
        fde.state := fde.state.(pending := true);
        RegistrationKeeps();
        assert Sight() == old(Sight());
        var given;
        outcome, given := CallFdFunc(fde, true);
        assert given == {FdeRead};
      }
    }

    /** Restarts the account of cancellations. */
    ghost method ForgetCancelled()
      requires Valid()
      modifies `cancelled
      ensures Valid() && cancelled == {}
      ensures Distinct(pending) && pending == Without(pending, {})
    {
      cancelled := {};
      WithoutNone(pending, {});
    }

    /** The view in which the dequeued fdevent still counts as queued. */
    ghost function Held(fde: Fdevent?): View<Fdevent>
      reads `trace, `notices, `pending, pending`events, fde
    {
      if fde == null then Sight() else Sight().(queued := Sight().queued[fde := fde.events])
    }

    ghost function One(fde: Fdevent?): seq<Fdevent> {
      if fde == null then [] else [fde]
    }

    /** Dequeuing opens the window of the dequeued fdevent. */
    method NextPending() returns (fde: Fdevent?)
      requires Valid()
      modifies `pending, listPending`next, listPending`prev, live`next, live`prev
      ensures Consistent(fde)
      ensures fde == null ==> old(pending) == [] && pending == []
      ensures fde != null ==> old(pending) == [fde] + pending && fde !in pending
      ensures Held(fde) == old(Sight())
    {
      hide EventsOn, Held, RingOf, Distinct, Watches;
      ghost var p := pending;
      fde := PlistDequeue();
      RegistrationKeeps();
      HeldIs(p, fde);
    }

    lemma HeldIs(p: seq<Fdevent>, fde: Fdevent?)
      requires p == One(fde) + pending
      ensures Held(fde) == View(trace, notices, EventsOn(p))
    {
    }

    /** What a stretch of the loop leaves in the record: every notification has been read directly behind a
        call of the notification handler that had something to read, and every such call has read one. */
    twostate predicate Accounted(outcome: Outcome)
      reads `trace, `notices
    {
      && Consumed(old(trace), old(notices), trace, notices)
      && (outcome.Running? ==> Closed(trace, |old(trace)|))
      && (outcome == Aborted(PipeRead) ==> |trace| > |old(trace)| && Reads(trace[|trace| - 1]))
    }

    /** Among user handlers alone, no notification is read and none is missed. */
    twostate predicate Quiet(outcome: Outcome)
      reads `trace, `notices
    {
      |old(trace)| <= |trace| && UsersOnly(trace, |old(trace)|) ==>
        notices == old(notices) && outcome != Aborted(PipeRead)
    }

    twostate lemma AccountedIsQuiet(outcome: Outcome)
      requires Accounted(outcome)
      ensures Quiet(outcome)
    {
      hide Consumed, Reads, UsersOnly;
      if |old(trace)| <= |trace| && UsersOnly(trace, |old(trace)|) {
        QuietAmongUsers(old(trace), old(notices), trace, notices);
      }
    }

    lemma NothingConsumed()
      ensures Consumed(trace, notices, trace, notices)
    {
    }

    /** One call of the inner loop, and the next fdevent. */
    method Turn(fde: Fdevent) returns (outcome: Outcome, given: Events, next: Fdevent?)
      requires Consistent(fde) && fde !in pending
      modifies this, live, fdTable, listPending
      ensures Grown() && given == old(fde.events) && given != {}
      ensures outcome.Aborted? ==> outcome.reason in {BogusFd, NotCreated, PipeRead}
      ensures outcome.Running? ==>
        && Consistent(next) && (next == null ==> pending == []) && (next != null ==> next !in pending)
        && Shrunk(old(pending), old(cancelled), One(next) + pending, cancelled)
        && Nested(Recorded(old(Sight()), Queued(fde, old(fde.handler), given)), Held(next))
      ensures Accounted(outcome)
    {
      hide Consistent, Shrunk, Nested, Sight, Held, Consumed, Paired, Reads;
      next := null;
      ghost var v, e := Sight(), Queued(fde, fde.handler, fde.events);
      SightIs();
      outcome, given := CallFdFunc(fde, false);
      CallConsumed(v, e);
      if outcome.Running? {
        ghost var p, x := pending, Sight();
        next := NextPending();
        assert p == One(next) + pending && Held(next) == x;
      }
    }

    lemma SightIs()
      ensures Sight().trace == trace && Sight().notices == notices
    {
    }

    lemma CallConsumed(v: View<Fdevent>, e: Entry<Fdevent>)
      requires e.Queued? && Nested(Recorded(v, e), Sight()) && Paired(trace, |v.trace|)
      ensures Consumed(v.trace, v.notices, trace, notices)
    {
      hide Nested, Consumed, Paired;
      ConsumedOne(v, e, Sight());
    }

    /** The inner loop of fdevent_loop. It empties the list; what it dequeues and dispatches is what was
        queued, in order, without the fdevents that handlers cancelled on the way. `Drained` relates
        these calls to everything else that happens meanwhile, in particular to the calls made because
        of notifications: by `Trace.RunsAgainExactlyWhen` those alone can run an fdevent again. */
    method Drain() returns (outcome: Outcome, dispatched: seq<Fdevent>, delivered: seq<Events>)
      requires Valid()
      modifies this, live, fdTable, listPending
      ensures Grown()
      ensures outcome.Aborted? ==> outcome.reason in {BogusFd, NotCreated, PipeRead}
      ensures outcome.Running? ==> Valid() && pending == [] && dispatched == Without(old(pending), cancelled)
      ensures outcome.Running? ==> Distinct(dispatched) && Drained(old(Sight()), dispatched, delivered, Sight())
      ensures outcome.Running? ==>
                |delivered| == |dispatched| && forall i :: 0 <= i < |delivered| ==> delivered[i] != {}
      ensures outcome.Running? && old(pending) != [] ==>
                |dispatched| > 0 && dispatched[0] == old(pending[0]) && delivered[0] == old(pending[0].events)
      ensures Accounted(outcome) && Quiet(outcome)
    {
      hide Consistent, Without, Shrunk, Distinct, Drained, Nested, Sight, Held, Consumed, Reads, Quiet;
      NothingConsumed();
      ghost var queued, v := pending, Sight();
      ghost var first := if queued == [] then {} else queued[0].events;
      ForgetCancelled();
      dispatched, delivered, outcome := [], [], Running;
      DrainedNothing(v);
      var fde := NextPending();
      while fde != null && outcome.Running?
        invariant Grown()
        invariant outcome.Aborted? ==> outcome.reason in {BogusFd, NotCreated, PipeRead}
        invariant outcome.Running? ==>
                    Consistent(fde) && (fde == null ==> pending == []) && (fde != null ==> fde !in pending)
        invariant outcome.Running? ==> dispatched + (One(fde) + pending) == Without(queued, cancelled)
        invariant outcome.Running? ==> Drained(v, dispatched, delivered, Held(fde))
        invariant Accounted(outcome)
        invariant |delivered| == |dispatched| && forall i :: 0 <= i < |delivered| ==> delivered[i] != {}
        invariant if dispatched == [] then outcome.Running? && fde == (if queued == [] then null else queued[0])
                  else queued != [] && dispatched[0] == queued[0] && delivered[0] == first
        invariant fde != null && dispatched == [] ==> fde.events == first
        decreases outcome.Running?, |pending|, fde != null
      {
        ghost var p, c, w := pending, cancelled, Held(fde);
        ghost var t, n, h := trace, notices, fde.handler;
        HeldOut(fde);
        var f: Fdevent, given, next := fde, {}, null;
        outcome, given, next := Turn(f);
        ConsumedTwice(old(trace), old(notices), t, n, trace, notices);
        if outcome.Running? {
          DrainedOne(v, dispatched, delivered, w, f, h, Held(next));
          Associates(dispatched, [f], p);
          ShrunkBehind(queued, dispatched + [f], p, c, One(next) + pending, cancelled);
        }
        dispatched, delivered, fde := dispatched + [f], delivered + [given], next;
      }
      HeldNone();
      WithoutDistinct(queued, cancelled);
      AccountedIsQuiet(outcome);
    }

    lemma HeldNone()
      ensures Held(null) == Sight()
    {
    }

    lemma HeldOut(fde: Fdevent)
      requires fde !in pending
      ensures fde in Held(fde).queued && Held(fde).queued[fde] == fde.events
      ensures Sight() == Held(fde).(queued := Held(fde).queued - {fde})
    {
    }

    /** select, asked about the interest sets, reports some of their members or fails. */
    method Select(kernel: Kernel) returns (selected: Selected)
      ensures SelectContract(selected)
    {
      if |kernel.failure| > 0 {
        selected := Failed(kernel.failure[0]);
      } else {
        var r, w, e := kernel.readable * readFds, kernel.writable * writeFds, kernel.erring * errorFds;
        selected := Ready(|r| + |w| + |e|, r, w, e);
      }
    }

    /** The descriptors acted on are registered. */
    ghost predicate Reportable(selected: Selected, bad: set<int>)
      reads `fdTable, fdTable
    {
      AllRegistered(Readable(selected, bad)) && AllRegistered(Writable(selected)) && AllRegistered(Erring(selected))
    }

    /** The fdevents that are ready, in ascending order of their descriptors. */
    ghost function ReadyNow(selected: Selected, bad: set<int>): seq<Fdevent>
      requires Reportable(selected, bad)
      reads `fdTable, fdTable
    {
      NewlyReady(fdTable[..], Readable(selected, bad), Writable(selected), Erring(selected), [], fdTable.Length)
    }

    ghost function BitsOf(s: seq<Fdevent>, rfd: set<int>, wfd: set<int>, efd: set<int>): map<Fdevent, Events>
      reads s`fd
    {
      map f | f in s :: ReadyBits(f.fd, rfd, wfd, efd)
    }

    /** How the reactor looks once the ready events have been handed out. */
    ghost function ReadySight(selected: Selected, bad: set<int>): View<Fdevent>
      requires Reportable(selected, bad)
      reads this, fdTable, ReadyNow(selected, bad)`fd
    {
      View(trace, notices,
        BitsOf(ReadyNow(selected, bad), Readable(selected, bad), Writable(selected), Erring(selected)))
    }

    lemma NothingHeld()
      requires Valid() && pending == []
      ensures forall f :: f in Snapshot() ==> Snapshot()[f].1 == {}
    {
    }

    /** select and fdevent_process with nothing queued. */
    method Report(kernel: Kernel) returns (outcome: Outcome, selected: Selected)
      requires Valid() && pending == []
      modifies `pending, `cancelled, live`state, live`events, listPending`next, listPending`prev, live`next, live`prev
      ensures outcome == Running && Valid()
      ensures old(SelectContract(selected)) && old(Reportable(selected, kernel.bad))
      ensures pending == old(ReadyNow(selected, kernel.bad)) && Sight() == old(ReadySight(selected, kernel.bad))
    {
      hide Valid, Progress, NewlyReady, Snapshot, Readable, BitsOf, Sight;
      selected := Select(kernel);
      NothingHeld();
      ghost var was, readable := Snapshot(), old(Readable(selected, kernel.bad));
      outcome := Process(selected, kernel.bad);
      HandedOut(was, readable, Writable(selected), Erring(selected));
      assert pending == old(ReadyNow(selected, kernel.bad));
      assert forall f :: f in pending ==> f in old(live) && f.fd == old(f.fd);
      assert BitsOf(pending, readable, Writable(selected), Erring(selected))
          == old(BitsOf(ReadyNow(selected, kernel.bad), readable, Writable(selected), Erring(selected)));
    }

    lemma FromNothing(s: seq<Fdevent>)
      ensures [] + s == s
    {
    }

    /** What was blank and is pending now holds its ready events. */
    lemma HandedOut(was: map<Fdevent, (State, Events)>, rfd: set<int>, wfd: set<int>, efd: set<int>)
      requires AllRegistered(rfd) && AllRegistered(wfd) && AllRegistered(efd)
      requires Valid() && Progress(was, [], rfd, wfd, efd, fdTable.Length)
      requires forall f :: f in was ==> was[f].1 == {}
      ensures pending == NewlyReady(fdTable[..], rfd, wfd, efd, [], fdTable.Length)
      ensures Sight() == View(trace, notices, BitsOf(pending, rfd, wfd, efd))
      ensures forall f :: f in pending ==> f in live
    {
      hide RingOf, InterestSets, NewlyReady;
      FromNothing(NewlyReady(fdTable[..], rfd, wfd, efd, [], fdTable.Length));
      forall f | f in pending
        ensures f.events == ReadyBits(f.fd, rfd, wfd, efd)
      {
        assert f in live && f.state.active && f.events != {} && was[f].1 == {};
      }
    }

    /** One round of fdevent_loop with nothing queued. The loop dispatches the ready fdevents in ascending
        order of their descriptors, but for those that handlers cancel meanwhile. By `Drained` each gets
        events that are ready on its descriptor, and besides at most the read of a notification; the
        first gets exactly its ready events. */
    method Round(kernel: Kernel)
      returns (outcome: Outcome, selected: Selected, dispatched: seq<Fdevent>, delivered: seq<Events>)
      requires Valid() && pending == []
      modifies this, live, fdTable, listPending
      ensures Grown()
      ensures outcome.Aborted? ==> outcome.reason in {BogusFd, NotCreated, PipeRead}
      ensures old(SelectContract(selected)) && old(Reportable(selected, kernel.bad))
      ensures outcome.Running? ==>
        && Valid() && pending == [] && Distinct(dispatched)
        && dispatched == Without(old(ReadyNow(selected, kernel.bad)), cancelled)
        && Drained(old(ReadySight(selected, kernel.bad)), dispatched, delivered, Sight())
      ensures outcome.Running? && old(ReadyNow(selected, kernel.bad)) != [] ==>
        && |dispatched| > 0 && |delivered| > 0 && dispatched[0] == old(ReadyNow(selected, kernel.bad)[0])
        && dispatched[0] in old(ReadySight(selected, kernel.bad)).queued
        && delivered[0] == old(ReadySight(selected, kernel.bad)).queued[dispatched[0]]
      ensures Accounted(outcome) && Quiet(outcome)
    {
      hide Consistent, Without, Shrunk, Distinct, Drained, NewlyReady, ReadyNow, ReadySight, Consumed, Reads, UsersOnly;
      outcome, selected := Report(kernel);
      assert pending != [] ==> pending[0] in Sight().queued && Sight().queued[pending[0]] == pending[0].events;
      outcome, dispatched, delivered := Drain();
    }

    /** fdevent_loop over any finite run: whatever the kernel reports and the handlers call, every
        round ends in a consistent reactor with nothing pending, and the only way to stop early is
        an abort a caller asked for, never one of the internal consistency checks. `calls` are the
        dispatches of the loop, round by round. */
    method Loop(notifyFd: int, rounds: seq<Kernel>) returns (outcome: Outcome, calls: seq<seq<Fdevent>>)
      requires Valid() && pending == [] && SlotFree(notifyFd)
      modifies this, live, fdTable, listPending
      ensures Grown()
      ensures outcome.Running? ==> Valid() && pending == [] && |calls| == |rounds|
      ensures forall i :: 0 <= i < |calls| ==> Distinct(calls[i])
      ensures outcome.Aborted? ==> outcome.reason in {BogusFd, NotCreated, PipeRead}
      ensures Accounted(outcome)
    {
      hide Consistent, Without, Shrunk, Distinct, Drained, Consumed, Reads, Quiet;
      var fde;
      NothingConsumed();
      calls := [];
      outcome, fde := Create(notifyFd, SubprocFunc);
      if outcome.Running? {
        Add(fde, {FdeRead});
      }
      var k := 0;
      while k < |rounds| && outcome.Running?
        invariant 0 <= k <= |rounds| && Grown()
        invariant outcome.Running? ==> Valid() && pending == [] && |calls| == k
        invariant forall i :: 0 <= i < |calls| ==> Distinct(calls[i])
        invariant outcome.Aborted? ==> outcome.reason in {BogusFd, NotCreated, PipeRead}
        invariant Accounted(outcome)
      {
        var selected, dispatched, delivered;
        ghost var t, n := trace, notices;
        outcome, selected, dispatched, delivered := Round(rounds[k]);
        ConsumedTwice(old(trace), old(notices), t, n, trace, notices);
        if outcome.Running? {
          calls := calls + [dispatched];
        }
        k := k + 1;
      }
    }
  }

  /** A reactor with one fdevent that watches for reads on a descriptor. */
  method WatchedRead(fd: int) returns (r: Reactor, f: Fdevent)
    requires 0 <= fd <= 32000
    ensures fresh(r) && fresh(r.listPending) && fresh(r.live) && fresh(r.fdTable)
    ensures r.Valid() && r.pending == [] && r.live == {f}
              && f.fd == fd && f.state.watched == {FdeRead} && f.state.active
  {
    hide Reactor.Consistent;
    r := new Reactor();
    var outcome;
    outcome, f := r.Create(fd, UserFunc);
    r.Add(f, {FdeRead});
  }

  /** A reactor in which a read is watched and queued. */
  method QueuedRead(fd: int) returns (r: Reactor, f: Fdevent)
    requires 0 <= fd <= 32000
    ensures fresh(r) && fresh(r.listPending) && fresh(r.live) && fresh(r.fdTable)
    ensures r.Valid() && f in r.pending && f in r.live && f.events == {FdeRead} && f.state.watched == {FdeRead}
  {
    hide Reactor.ListShape, Reactor.TableSize;
    r, f := WatchedRead(fd);
    assert r.fdTable[fd] == f && fd in r.readFds && f.events == {};
    var outcome := r.Process(Ready(1, {fd}, {}, {}), {});
  }

  /** The read is not wanted any more, and stays queued. */
  method UnwatchedReadStaysQueued(fd: int) returns (r: Reactor, f: Fdevent)
    requires 0 <= fd <= 32000
    ensures r.Valid() && f in r.pending && f.events == {FdeRead} && f.state.watched == {}
  {
    r, f := QueuedRead(fd);
    r.Del(f, {FdeRead});
  }

  /** The read is wanted as before, together with a write, and is lost. */
  method WatchedReadIsLost(fd: int) returns (r: Reactor, f: Fdevent)
    requires 0 <= fd <= 32000
    ensures r.Valid() && f !in r.pending && f.events == {} && f.state.watched == {FdeRead, FdeWrite}
  {
    r, f := QueuedRead(fd);
    r.Add(f, {FdeWrite});
  }

  /** Tests one descriptor against the three result sets, counting its bits off `n`. */
  method Probe(i: int, n: int, rfd: set<int>, wfd: set<int>, efd: set<int>,
               ghost rest: (set<int>, set<int>, set<int>))
    returns (events: Events, left: int, ghost rest': (set<int>, set<int>, set<int>))
    requires Rest(rest.0, rfd, i) && Rest(rest.1, wfd, i) && Rest(rest.2, efd, i)
    requires n == |rest.0| + |rest.1| + |rest.2|
    ensures events == ReadyBits(i, rfd, wfd, efd)
    ensures Rest(rest'.0, rfd, i + 1) && Rest(rest'.1, wfd, i + 1) && Rest(rest'.2, efd, i + 1)
    ensures left == |rest'.0| + |rest'.1| + |rest'.2|
  {
    events, left := {}, n;
    RestStep(rest.0, rfd, i);
    RestStep(rest.1, wfd, i);
    RestStep(rest.2, efd, i);
    events := Raised(events, FdeRead, i in rfd);
    events := Raised(events, FdeWrite, i in wfd);
    events := Raised(events, FdeError, i in efd);
    if i in rfd { left := left - 1; }
    if i in wfd { left := left - 1; }
    if i in efd { left := left - 1; }
    rest' := (rest.0 - {i}, rest.1 - {i}, rest.2 - {i});
  }

  lemma RestStep(left: set<int>, fds: set<int>, i: int)
    requires Rest(left, fds, i)
    ensures Rest(left - {i}, fds, i + 1)
    ensures |left - {i}| == |left| - (if i in fds then 1 else 0)
  {
    if i !in fds {
      assert left - {i} == left;
    }
  }
}
