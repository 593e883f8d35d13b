/** The record that a run of the reactor leaves: the handlers it called, with their events, and the
    notifications it read. `F` is the type of fdevents. */
module Trace {
  import opened FdFlags
  import opened Sequences

  /** A notification of an exited subprocess: its descriptor, and how many bytes are still unread there. */
  datatype Notice = Notice(fd: int, unread: int)

  /** A call of the loop on the fdevent it has dequeued, with the handler that is called; a notification
      read, with the fdevent registered at its descriptor and whether that was queued; a call made because
      of a notification. */
  datatype Entry<F> =
    | Queued(fde: F, handler: Handler, events: Events)
    | Told(notice: Notice, occupant: seq<F>, wasQueued: bool)
    | Forced(fde: F, handler: Handler, events: Events)

  ghost predicate IsCall<F>(e: Entry<F>) {
    !e.Told?
  }

  /** A notification makes the handler of a registered fdevent run at once if nothing is left to read
      and it is not queued anyway. */
  ghost predicate Forces<F>(e: Entry<F>) {
    e.Told? && e.occupant != [] && e.notice.unread == 0 && !e.wasQueued
  }

  /** A call that reads a notification: of the notification handler, when there is something to read. */
  ghost predicate Reads<F>(e: Entry<F>) {
    IsCall(e) && e.handler.SubprocFunc? && FdeRead in e.events
  }

  /** From a place on, a notification is read directly behind a call that reads one, and nowhere else. Only
      at the very end may such a call have found nothing to read. */
  ghost predicate Paired<F>(t: seq<Entry<F>>, from: nat) {
    forall k :: from <= k < |t| ==> PairedAt(t, k)
  }

  ghost predicate PairedAt<F>(t: seq<Entry<F>>, k: nat)
    requires k < |t|
  {
    && (t[k].Told? ==> k > 0 && Reads(t[k - 1]))
    && (Reads(t[k]) && k + 1 < |t| ==> t[k + 1].Told?)
  }

  /** No call is still waiting for its notification. */
  ghost predicate Closed<F>(t: seq<Entry<F>>, from: nat) {
    |t| > from ==> !Reads(t[|t| - 1])
  }

  lemma PairedTwice<F>(t: seq<Entry<F>>, u: seq<Entry<F>>, from: nat)
    requires from <= |t| && t <= u && Paired(t, from) && Closed(t, from) && Paired(u, |t|)
    ensures Paired(u, from) && (Closed(u, |t|) ==> Closed(u, from))
  {
    hide Reads;
    forall k | from <= k < |u|
      ensures PairedAt(u, k)
    {
      if k < |t| {
        assert PairedAt(t, k);
        assert k + 1 < |t| ==> u[k + 1] == t[k + 1];
      }
    }
  }

  /** A call, and what the handler adds to the record. */
  lemma PairedCall<F>(t: seq<Entry<F>>, e: Entry<F>, u: seq<Entry<F>>)
    requires IsCall(e) && t + [e] <= u && Paired(u, |t| + 1)
    requires |u| > |t| + 1 ==> u[|t| + 1].Told?
    ensures Paired(u, |t|)
  {
    hide Reads;
    assert u[|t|] == e;
    forall k | |t| <= k < |u|
      ensures PairedAt(u, k)
    {
      assert k > |t| ==> PairedAt(u, k);
    }
  }

  /** What a stretch of the loop does to the record and the notifications, however it ends. */
  ghost predicate Consumed<F>(t: seq<Entry<F>>, before: seq<Notice>, u: seq<Entry<F>>, after: seq<Notice>) {
    && t <= u && Notices(u) + after == Notices(t) + before
    && Paired(u, |t|)
    && (|u| > |t| ==> IsCall(u[|t|]))
  }

  /** From a place on, none but user handlers have been called. */
  ghost predicate UsersOnly<F>(t: seq<Entry<F>>, from: nat) {
    forall k :: from <= k < |t| && IsCall(t[k]) ==> t[k].handler.UserFunc?
  }

  /** If it calls user handlers only, it reads no notification. */
  lemma QuietAmongUsers<F>(t: seq<Entry<F>>, before: seq<Notice>, u: seq<Entry<F>>, after: seq<Notice>)
    requires Consumed(t, before, u, after)
    requires UsersOnly(u, |t|)
    ensures after == before && (|u| > |t| ==> !Reads(u[|u| - 1]))
  {
    forall k | |t| <= k < |u|
      ensures !u[k].Told?
    {
      assert PairedAt(u, k);
    }
    NoNotices(t, u);
    assert after == (Notices(u) + after)[|Notices(u)|..];
    assert before == (Notices(t) + before)[|Notices(t)|..];
  }

  lemma {:induction false} NoNotices<F>(t: seq<Entry<F>>, u: seq<Entry<F>>)
    requires t <= u && forall k :: |t| <= k < |u| ==> !u[k].Told?
    ensures Notices(u) == Notices(t)
    decreases |u|
  {
    if |t| < |u| {
      NoNotices(t, u[..|u| - 1]);
    } else {
      assert t == u;
    }
  }

  lemma ConsumedTwice<F>(t: seq<Entry<F>>, a: seq<Notice>, u: seq<Entry<F>>, b: seq<Notice>,
                         w: seq<Entry<F>>, c: seq<Notice>)
    requires Consumed(t, a, u, b) && Closed(u, |t|) && Consumed(u, b, w, c)
    ensures Consumed(t, a, w, c) && |t| <= |u| <= |w| && (Closed(w, |u|) ==> Closed(w, |t|))
  {
    hide Notices, Reads, PairedAt;
    PairedTwice(u, w, |t|);
    assert |u| > |t| ==> w[|t|] == u[|t|];
  }

  /** A call of the loop, and what its handler does. */
  lemma ConsumedOne<F>(v: View<F>, e: Entry<F>, w: View<F>)
    requires e.Queued? && Nested(View(v.trace + [e], v.notices, v.queued), w) && Paired(w.trace, |v.trace|)
    ensures Consumed(v.trace, v.notices, w.trace, w.notices)
  {
    hide Notices, Reads, PairedAt;
    EntryAdded(v.trace, e);
    assert w.trace[|v.trace|] == e;
  }

  /** The calls of the loop itself. */
  ghost function Turns<F>(t: seq<Entry<F>>): seq<(F, Events)> {
    if t == [] then []
    else
      var e := t[|t| - 1];
      Turns(t[..|t| - 1]) + if e.Queued? then [(e.fde, e.events)] else []
  }

  ghost function Notices<F>(t: seq<Entry<F>>): seq<Notice> {
    if t == [] then []
    else
      var e := t[|t| - 1];
      Notices(t[..|t| - 1]) + if e.Told? then [e.notice] else []
  }

  lemma EntryAdded<F>(t: seq<Entry<F>>, e: Entry<F>)
    ensures Turns(t + [e]) == Turns(t) + if e.Queued? then [(e.fde, e.events)] else []
    ensures Notices(t + [e]) == Notices(t) + if e.Told? then [e.notice] else []
  {
    assert (t + [e])[..|t|] == t;
  }

  /** From a place on, a call is made because of a notification exactly where one stands before it that
      forces it, and then on the fdevent registered at its descriptor. */
  ghost predicate Answered<F>(t: seq<Entry<F>>, from: nat) {
    forall k :: from <= k < |t| ==> AnsweredAt(t, k)
  }

  ghost predicate AnsweredAt<F>(t: seq<Entry<F>>, k: nat)
    requires k < |t|
  {
    && (t[k].Told? ==> (Forces(t[k]) <==> k + 1 < |t| && t[k + 1].Forced?))
    && (t[k].Forced? ==> k > 0 && Forces(t[k - 1]) && t[k - 1].occupant == [t[k].fde] && FdeRead in t[k].events)
  }

  /** The fdevent has been called between two places. */
  ghost predicate Ran<F>(t: seq<Entry<F>>, from: nat, to: nat, f: F)
    requires to <= |t|
  {
    exists k :: from <= k < to && IsCall(t[k]) && t[k].fde == f
  }

  /** The loop itself calls no fdevent that has been called before. */
  ghost predicate TurnsAreFirst<F>(t: seq<Entry<F>>, from: nat) {
    forall k :: from <= k < |t| && t[k].Queued? ==> !Ran(t, from, k, t[k].fde)
  }

  /** An fdevent is called again exactly when a notification that has just been read names the
      descriptor of one that has been called already, has nothing left to read, and finds it not queued. */
  lemma RunsAgainExactlyWhen<F>(t: seq<Entry<F>>, from: nat, k: nat)
    requires Answered(t, from) && TurnsAreFirst(t, from) && from < k < |t|
    ensures IsCall(t[k]) && Ran(t, from, k, t[k].fde)
            <==> Forces(t[k - 1]) && Ran(t, from, k - 1, t[k - 1].occupant[0])
  {
    assert AnsweredAt(t, k) && AnsweredAt(t, k - 1);
    if IsCall(t[k]) && Ran(t, from, k, t[k].fde) {
      var i :| from <= i < k && IsCall(t[i]) && t[i].fde == t[k].fde;
      assert t[k].Forced? && i != k - 1;
    }
  }

  /** What can be seen of a reactor from outside the handlers: the record, the notifications still to be
      read, and the events of the queued fdevents. */
  datatype View<F> = View(trace: seq<Entry<F>>, notices: seq<Notice>, queued: map<F, Events>)

  /** The events that reading notifications may add. */
  ghost function Extra(before: seq<Notice>, after: seq<Notice>): Events {
    if |before| == |after| then {} else {FdeRead}
  }

  /** What a handler may do, whatever it calls: no turn of the loop; notifications are read from the
      front; whoever was called is not on the list; and the list gains neither fdevents nor, but for
      reads that notifications add, events. */
  ghost predicate Nested<F>(v: View<F>, w: View<F>) {
    && v.trace <= w.trace && |w.notices| <= |v.notices|
    && NoTurns(w.trace, |v.trace|)
    && Notices(w.trace) + w.notices == Notices(v.trace) + v.notices
    && Answered(w.trace, |v.trace|)
    && NoneQueued(w, |v.trace|)
    && EventsWithin(v, w)
  }

  ghost predicate NoTurns<F>(t: seq<Entry<F>>, from: nat) {
    forall k :: from <= k < |t| ==> !t[k].Queued?
  }

  lemma {:induction false} TurnsKept<F>(t: seq<Entry<F>>, u: seq<Entry<F>>)
    requires t <= u && NoTurns(u, |t|)
    ensures Turns(u) == Turns(t)
    decreases |u|
  {
    if |t| < |u| {
      TurnsKept(t, u[..|u| - 1]);
    } else {
      assert t == u;
    }
  }

  ghost predicate NoneQueued<F>(w: View<F>, from: nat) {
    forall k :: from <= k < |w.trace| && IsCall(w.trace[k]) ==> w.trace[k].fde !in w.queued
  }

  ghost predicate EventsWithin<F>(v: View<F>, w: View<F>) {
    forall f :: f in w.queued ==> f in v.queued && w.queued[f] <= v.queued[f] + Extra(v.notices, w.notices)
  }

  lemma NestedGrows<F>(v: View<F>, w: View<F>)
    requires Nested(v, w)
    ensures v.trace <= w.trace && |w.notices| <= |v.notices|
  {
  }

  lemma NestedQuiet<F>(v: View<F>, w: View<F>)
    requires w.trace == v.trace && w.notices == v.notices
    requires forall f :: f in w.queued ==> f in v.queued && w.queued[f] <= v.queued[f]
    ensures Nested(v, w)
  {
  }

  lemma AnsweredTwice<F>(t: seq<Entry<F>>, u: seq<Entry<F>>, from: nat)
    requires from <= |t| && t <= u && Answered(t, from) && Answered(u, |t|)
    ensures Answered(u, from)
  {
    forall k | from <= k < |u|
      ensures AnsweredAt(u, k)
    {
      if k < |t| {
        assert AnsweredAt(t, k);
        assert k + 1 == |t| < |u| ==> AnsweredAt(u, k + 1);
      }
    }
  }

  lemma NestedTwice<F>(u: View<F>, v: View<F>, w: View<F>)
    requires Nested(u, v) && Nested(v, w)
    ensures Nested(u, w)
  {
    hide Turns, Notices, Answered;
    AnsweredTwice(v.trace, w.trace, |u.trace|);
    assert forall k :: |u.trace| <= k < |v.trace| ==> w.trace[k] == v.trace[k];
    forall k | |u.trace| <= k < |w.trace| && IsCall(w.trace[k])
      ensures w.trace[k].fde !in w.queued
    {
      assert k < |v.trace| ==> w.trace[k] == v.trace[k];
    }
  }

  /** A notification that forces nothing. */
  lemma NestedTold<F>(v: View<F>, e: Entry<F>, w: View<F>)
    requires v.notices != [] && e.Told? && e.notice == v.notices[0] && !Forces(e)
    requires w.trace == v.trace + [e] && w.notices == v.notices[1..]
    requires forall f :: f in w.queued ==> f in v.queued && w.queued[f] <= v.queued[f] + {FdeRead}
    ensures Nested(v, w)
  {
    EntryAdded(v.trace, e);
    assert Notices(v.trace) + [e.notice] + w.notices == Notices(v.trace) + v.notices;
  }

  /** A notification that forces a call, and what that call does. */
  lemma NestedForced<F>(v: View<F>, e: Entry<F>, c: Entry<F>, w: View<F>)
    requires v.notices != [] && Forces(e) && e.notice == v.notices[0]
    requires c.Forced? && e.occupant == [c.fde] && c.fde !in v.queued && FdeRead in c.events
    requires Nested(View(v.trace + [e] + [c], v.notices[1..], v.queued), w)
    ensures Nested(v, w)
  {
    hide Turns, Notices;
    var n := |v.trace|;
    EntryAdded(v.trace, e);
    EntryAdded(v.trace + [e], c);
    assert w.trace[n] == e && w.trace[n + 1] == c;
    assert Notices(v.trace) + [e.notice] + v.notices[1..] == Notices(v.trace) + v.notices;
    forall k | n <= k < |w.trace|
      ensures AnsweredAt(w.trace, k)
    {
      assert k >= n + 2 ==> AnsweredAt(w.trace, k);
    }
  }

  // ---------- the loop ----------

  ghost function Pairs<F>(dispatched: seq<F>, delivered: seq<Events>): seq<(F, Events)>
    requires |dispatched| == |delivered|
  {
    seq(|dispatched|, i requires 0 <= i < |dispatched| => (dispatched[i], delivered[i]))
  }

  /** The loop has made these calls since `v`; the fdevent it has dequeued counts as queued in `w`. */
  ghost predicate Drained<F>(v: View<F>, dispatched: seq<F>, delivered: seq<Events>, w: View<F>) {
    && |dispatched| == |delivered|
    && v.trace <= w.trace && |w.notices| <= |v.notices|
    && Turns(w.trace) == Turns(v.trace) + Pairs(dispatched, delivered)
    && Notices(w.trace) + w.notices == Notices(v.trace) + v.notices
    && Answered(w.trace, |v.trace|)
    && TurnsAreFirst(w.trace, |v.trace|)
    && NoneQueued(w, |v.trace|)
    && EventsWithin(v, w)
    && forall i :: 0 <= i < |dispatched| ==>
         dispatched[i] in v.queued && delivered[i] <= v.queued[dispatched[i]] + Extra(v.notices, w.notices)
  }

  lemma DrainedNothing<F>(v: View<F>)
    ensures Drained(v, [], [], v)
  {
  }

  /** One call of the loop, and what its handler does. */
  lemma DrainedOne<F>(v: View<F>, dispatched: seq<F>, delivered: seq<Events>, w: View<F>, f: F, h: Handler,
                       x: View<F>)
    requires Drained(v, dispatched, delivered, w) && f in w.queued
    requires Nested(View(w.trace + [Queued(f, h, w.queued[f])], w.notices, w.queued - {f}), x)
    ensures Drained(v, dispatched + [f], delivered + [w.queued[f]], x)
  {
    hide Turns, Notices, Pairs, Answered, TurnsAreFirst;
    var e := Queued(f, h, w.queued[f]);
    var t := w.trace + [e];
    EntryAdded(w.trace, e);
    TurnsKept(t, x.trace);
    PairsAdded(dispatched, delivered, f, w.queued[f]);
    Associates(Turns(v.trace), Pairs(dispatched, delivered), [(f, w.queued[f])]);
    AnsweredTurn(w.trace, e, |v.trace|);
    AnsweredTwice(t, x.trace, |v.trace|);
    StillFirst(v, w, f, h, x);
    assert forall k :: |v.trace| <= k < |w.trace| ==> x.trace[k] == w.trace[k];
    assert x.trace[|w.trace|] == e;
  }

  lemma PairsAdded<F>(dispatched: seq<F>, delivered: seq<Events>, f: F, events: Events)
    requires |dispatched| == |delivered|
    ensures Pairs(dispatched + [f], delivered + [events]) == Pairs(dispatched, delivered) + [(f, events)]
  {
  }

  lemma AnsweredTurn<F>(t: seq<Entry<F>>, e: Entry<F>, from: nat)
    requires Answered(t, from) && e.Queued?
    ensures Answered(t + [e], from)
  {
    forall k | from <= k < |t + [e]|
      ensures AnsweredAt(t + [e], k)
    {
      assert k < |t| ==> AnsweredAt(t, k);
    }
  }

  lemma StillFirst<F>(v: View<F>, w: View<F>, f: F, h: Handler, x: View<F>)
    requires v.trace <= w.trace && TurnsAreFirst(w.trace, |v.trace|) && NoneQueued(w, |v.trace|) && f in w.queued
    requires w.trace + [Queued(f, h, w.queued[f])] <= x.trace && NoTurns(x.trace, |w.trace| + 1)
    ensures TurnsAreFirst(x.trace, |v.trace|)
  {
    var n := |v.trace|;
    forall k | n <= k < |x.trace| && x.trace[k].Queued?
      ensures !Ran(x.trace, n, k, x.trace[k].fde)
    {
      assert x.trace[|w.trace|].fde == f;
      assert forall i :: n <= i < |w.trace| ==> x.trace[i] == w.trace[i];
      assert k < |w.trace| ==> !Ran(w.trace, n, k, w.trace[k].fde);
    }
  }
}
