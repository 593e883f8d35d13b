/** The ring buffer between an interrupt handler and the main loop. */
module Ring {
  import opened Bits

  const CYCL_MAX: nat := 128

  type Index = i: int | 0 <= i < CYCL_MAX

  function Increase(i: Index): Index {
    if i == CYCL_MAX - 1 then 0 else i + 1
  }

  function Count(start: Index, end: Index): nat {
    if start <= end then end - start else end + CYCL_MAX - start
  }

  /** The i-th slot counted from a position on. */
  function Slot(start: Index, i: nat): Index {
    (start + i) % CYCL_MAX
  }

  /** The bytes waiting in the ring, oldest first. */
  function Waiting(buf: seq<Byte>, start: Index, end: Index): (w: seq<Byte>)
    requires |buf| == CYCL_MAX
    ensures |w| == Count(start, end) < CYCL_MAX
  {
    seq(Count(start, end), i requires 0 <= i < Count(start, end) => buf[Slot(start, i)])
  }

  /** Adding at the end and taking from the start. */
  lemma WaitingPlus(buf: seq<Byte>, start: Index, end: Index, b: Byte)
    requires |buf| == CYCL_MAX && Increase(end) != start
    ensures Waiting(buf[end := b], start, Increase(end)) == Waiting(buf, start, end) + [b]
  {
    assert Count(start, Increase(end)) == Count(start, end) + 1;
    assert Slot(start, Count(start, end)) == end;
  }

  lemma WaitingMinus(buf: seq<Byte>, start: Index, end: Index)
    requires |buf| == CYCL_MAX && start != end
    ensures Waiting(buf, start, end) == [buf[start]] + Waiting(buf, Increase(start), end)
  {
    assert Count(start, end) == Count(Increase(start), end) + 1;
    assert Slot(start, 0) == start;
    forall i | 0 <= i < Count(Increase(start), end)
      ensures Slot(start, i + 1) == Slot(Increase(start), i)
    {
    }
  }

  class Cycle {
    var cyclBuf: array<Byte>
    var cyclStart: Index
    var cyclEnd: Index

    ghost predicate Valid()
      reads this
    {
      cyclBuf.Length == CYCL_MAX
    }

    ghost function Contents(): seq<Byte>
      reads this, cyclBuf
      requires Valid()
    {
      Waiting(cyclBuf[..], cyclStart, cyclEnd)
    }

    constructor ()
      ensures Valid() && Contents() == []
    {
      cyclBuf, cyclStart, cyclEnd := new Byte[CYCL_MAX], 0, 0;
    }

    /** A byte that does not fit is dropped. */
    method Add(ch: Byte)
      requires Valid()
      modifies `cyclEnd, cyclBuf
      ensures Valid()
      ensures Contents() == if |old(Contents())| < 127 then old(Contents()) + [ch] else old(Contents())
    {
      if cyclStart == Increase(cyclEnd) {
        return;
      }
      WaitingPlus(cyclBuf[..], cyclStart, cyclEnd, ch);
      assert cyclBuf[..][cyclEnd := ch] == cyclBuf[..cyclEnd] + [ch] + cyclBuf[cyclEnd + 1..];
      cyclBuf[cyclEnd] := ch;
      cyclEnd := if cyclEnd == CYCL_MAX - 1 then 0 else cyclEnd + 1;
    }

    method Get() returns (ch: Byte)
      requires Valid()
      modifies `cyclStart
      ensures Valid()
      ensures if old(Contents()) == [] then ch == 0 && Contents() == [] else old(Contents()) == [ch] + Contents()
    {
      if cyclStart == cyclEnd {
        return 0;
      }
      WaitingMinus(cyclBuf[..], cyclStart, cyclEnd);
      if cyclStart == CYCL_MAX - 1 {
        cyclStart := 0;
        ch := cyclBuf[CYCL_MAX - 1];
      } else {
        ch := cyclBuf[cyclStart];
        cyclStart := cyclStart + 1;
      }
    }
  }

  // ---------- the two sides running at once ----------

  /** Where the producer is in cyclAdd: the test for room, the store and the move of the end index are
      separate steps. C orders the last two only at the end of the buffer, the store being first there. */
  datatype Producer = Idle | Fits(ch: Byte) | Stored(ch: Byte) | Moved(ch: Byte)

  /** What is known of those two steps: that the store comes first, that interrupts are disabled around
      them as the macros intend, or nothing, the macros being empty. */
  datatype Mode = StoreFirst | Masked | Unordered

  /** Where the consumer is in cyclGet: after the test it may load and then move the start index, or
      move and then load from the slot behind, as the code does at the end of the buffer. */
  datatype Consumer = Resting | Takes | Loaded(ch: Byte) | Passed

  datatype State = State(buf: seq<Byte>, start: Index, end: Index, producer: Producer, consumer: Consumer,
                         accepted: seq<Byte>, delivered: seq<Byte>)

  datatype Event =
    | TestFull(ch: Byte) | Store | MoveEnd
    | TestEmpty | Load | MoveStart

  predicate Shape(s: State) {
    |s.buf| == CYCL_MAX
  }

  predicate Initial(s: State) {
    Shape(s) && s.start == s.end == 0 && s.producer == Idle && s.consumer == Resting && s.accepted == s.delivered == []
  }

  function Behind(i: Index): Index {
    if i == 0 then CYCL_MAX - 1 else i - 1
  }

  /** May the event happen now? */
  predicate Enabled(s: State, e: Event, mode: Mode) {
    match e
    case TestFull(_) => s.producer.Idle?
    case Store => s.producer.Fits? || s.producer.Moved?
    case MoveEnd => s.producer.Stored? || (s.producer.Fits? && !mode.StoreFirst?)
    case TestEmpty => s.consumer.Resting? && !Shut(s, mode)
    case Load => (s.consumer.Takes? || s.consumer.Passed?) && !Shut(s, mode)
    case MoveStart => (s.consumer.Takes? || s.consumer.Loaded?) && !Shut(s, mode)
  }

  /** Interrupts are disabled between the two steps of the producer. */
  predicate Shut(s: State, mode: Mode) {
    mode.Masked? && (s.producer.Stored? || s.producer.Moved?)
  }

  /** One step of either side. */
  function Next(s: State, e: Event): (t: State)
    requires Shape(s) && Enabled(s, e, Unordered)
    ensures Shape(t)
  {
    match e
    case TestFull(ch) => if s.start == Increase(s.end) then s else s.(producer := Fits(ch))
    case Store =>
      if s.producer.Fits? then s.(buf := s.buf[s.end := s.producer.ch], producer := Stored(s.producer.ch))
      else s.(buf := s.buf[Behind(s.end) := s.producer.ch], producer := Idle)
    case MoveEnd =>
      s.(end := Increase(s.end), producer := if s.producer.Stored? then Idle else Moved(s.producer.ch),
         accepted := s.accepted + [s.producer.ch])
    case TestEmpty => if s.start == s.end then s else s.(consumer := Takes)
    case Load =>
      if s.consumer.Takes? then s.(consumer := Loaded(s.buf[s.start]))
      else s.(consumer := Resting, delivered := s.delivered + [s.buf[Behind(s.start)]])
    case MoveStart =>
      if s.consumer.Takes? then s.(start := Increase(s.start), consumer := Passed)
      else s.(start := Increase(s.start), consumer := Resting, delivered := s.delivered + [s.consumer.ch])
  }

  /** A run: events in any order, without effect where they are not possible. */
  function Run(s: State, events: seq<Event>, mode: Mode): (t: State)
    requires Shape(s)
    ensures Shape(t)
    decreases |events|
  {
    if events == [] then s
    else Run(if Enabled(s, events[0], mode) then Next(s, events[0]) else s, events[1..], mode)
  }

  /** A byte already passed over but not yet loaded. */
  function InFlight(s: State): seq<Byte>
    requires Shape(s)
  {
    if s.consumer.Passed? then [s.buf[Behind(s.start)]] else []
  }

  /** Nothing is lost, repeated or reordered between what was accepted and what was delivered. */
  ghost predicate Ordered(s: State) {
    && Shape(s)
    && !s.producer.Moved?
    && s.accepted == s.delivered + InFlight(s) + Waiting(s.buf, s.start, s.end)
    && (s.producer.Fits? || s.producer.Stored? ==> Increase(s.end) != s.start)
    && (s.producer.Stored? ==> s.buf[s.end] == s.producer.ch)
    && (s.consumer.Takes? || s.consumer.Loaded? ==> s.start != s.end)
    && (s.consumer.Loaded? ==> s.buf[s.start] == s.consumer.ch)
  }

  /** The store touches neither a waiting byte nor the one in flight. */
  lemma StoreIsApart(buf: seq<Byte>, start: Index, end: Index, b: Byte)
    requires |buf| == CYCL_MAX && Increase(end) != start
    ensures Waiting(buf[end := b], start, end) == Waiting(buf, start, end)
    ensures Behind(start) != end
  {
    forall i | 0 <= i < Count(start, end)
      ensures Slot(start, i) != end
    {
    }
  }

  lemma StepKeepsOrder(s: State, e: Event)
    requires Ordered(s) && Enabled(s, e, StoreFirst)
    ensures Ordered(Next(s, e))
  {
    hide Waiting;
    match e
    case Store => StoreIsApart(s.buf, s.start, s.end, s.producer.ch);
    case MoveEnd =>
      WaitingPlus(s.buf, s.start, s.end, s.producer.ch);
      assert s.buf[s.end := s.producer.ch] == s.buf;
    case MoveStart =>
      WaitingMinus(s.buf, s.start, s.end);
    case _ =>
  }

  /** The two steps of the producer, undisturbed, come to the same in either order. */
  lemma BothOrders(s: State)
    requires Shape(s) && s.producer.Fits?
    ensures Next(Next(s, MoveEnd), Store) == Next(Next(s, Store), MoveEnd)
  {
  }

  /** The state after the store, if only that is missing. */
  function Settled(s: State): (t: State)
    requires Shape(s)
    ensures Shape(t) && t.accepted == s.accepted && t.delivered == s.delivered && t.start == s.start && t.end == s.end
  {
    if s.producer.Moved? then Next(s, Store) else s
  }

  lemma StepKeepsSettled(s: State, e: Event, mode: Mode)
    requires !mode.Unordered? && Shape(s) && Ordered(Settled(s))
              && (s.producer.Moved? ==> mode.Masked?) && Enabled(s, e, mode)
    ensures var t := Next(s, e); Ordered(Settled(t)) && (t.producer.Moved? ==> mode.Masked?)
  {
    hide Waiting, Ordered;
    if s.producer.Moved? {
      assert e == Store;
    } else if e == MoveEnd && s.producer.Fits? {
      StepKeepsOrder(s, Store);
      StepKeepsOrder(Next(s, Store), MoveEnd);
      BothOrders(s);
    } else {
      StepKeepsOrder(s, e);
    }
  }

  lemma {:induction false} RunKeepsSettled(s: State, events: seq<Event>, mode: Mode)
    requires !mode.Unordered? && Shape(s) && Ordered(Settled(s)) && (s.producer.Moved? ==> mode.Masked?)
    ensures Ordered(Settled(Run(s, events, mode)))
    decreases |events|
  {
    hide Next, Settled, Ordered, Enabled;
    if events != [] {
      var e := events[0];
      if Enabled(s, e, mode) {
        StepKeepsSettled(s, e, mode);
        EnabledAnyway(s, e, mode);
        RunKeepsSettled(Next(s, e), events[1..], mode);
      } else {
        RunKeepsSettled(s, events[1..], mode);
      }
    }
  }

  lemma EnabledAnyway(s: State, e: Event, mode: Mode)
    requires Enabled(s, e, mode)
    ensures Enabled(s, e, Unordered)
  {
  }

  /** The delivered bytes are a prefix of the accepted ones, the rest is in flight or waits, and at most
      127 bytes wait. */
  ghost predicate Delivers(s: State, events: seq<Event>, mode: Mode)
    requires Shape(s)
  {
    var t := Settled(Run(s, events, mode));
    && t.accepted == t.delivered + InFlight(t) + Waiting(t.buf, t.start, t.end)
    && t.delivered <= t.accepted
    && |Waiting(t.buf, t.start, t.end)| <= 127
  }

  /** With the store first, or with interrupts disabled around the two steps, this is so in every
      interleaving of the single steps. */
  lemma EveryInterleavingIsOrdered(s: State, events: seq<Event>, mode: Mode)
    requires Initial(s) && !mode.Unordered?
    ensures Delivers(s, events, mode)
  {
    assert Waiting(s.buf, 0, 0) == [];
    RunKeepsSettled(s, events, mode);
  }

  /** And only then: with neither, some interleaving delivers a byte that was never accepted. */
  lemma OrderedExactlyWhen(s: State, mode: Mode)
    requires Initial(s)
    ensures !mode.Unordered? <==> forall events: seq<Event> :: Delivers(s, events, mode)
  {
    if mode.Unordered? {
      var ch: Byte := if s.buf[0] == 0 then 1 else 0;
      MovingFirstLosesBytes(s, ch);
      assert !Delivers(s, [TestFull(ch), MoveEnd, TestEmpty, Load, MoveStart], Unordered);
    } else {
      forall events: seq<Event>
        ensures Delivers(s, events, mode)
      {
        EveryInterleavingIsOrdered(s, events, mode);
      }
    }
  }

  /** A byte is refused only when 127 are waiting, and none is found only when none waits. */
  lemma RefusedExactlyWhenFull(s: State, ch: Byte)
    requires Ordered(s)
    ensures s.producer.Idle? ==> (Next(s, TestFull(ch)) == s <==> |Waiting(s.buf, s.start, s.end)| == 127)
    ensures s.consumer.Resting? ==> (Next(s, TestEmpty) == s <==> s.delivered == s.accepted)
  {
  }

  /** Two events after another that both happen or both do not. */
  lemma RunBoth(s: State, e: Event, f: Event)
    requires Shape(s) && Enabled(s, e, StoreFirst) && Enabled(Next(s, e), f, StoreFirst)
    ensures Run(s, [e, f], StoreFirst) == Next(Next(s, e), f)
  {
    hide Next;
    var t := Next(s, e);
    assert [e, f][1..] == [f] && [f][1..] == [];
    assert Run(s, [e, f], StoreFirst) == Run(t, [f], StoreFirst) == Run(Next(t, f), [], StoreFirst);
  }

  lemma RunNeither(s: State, e: Event, f: Event)
    requires Shape(s) && !Enabled(s, e, StoreFirst) && !Enabled(s, f, StoreFirst)
    ensures Run(s, [e, f], StoreFirst) == s
  {
    hide Next;
    assert [e, f][1..] == [f] && [f][1..] == [];
    assert Run(s, [e, f], StoreFirst) == Run(s, [f], StoreFirst) == Run(s, [], StoreFirst);
  }

  /** A call that is not interrupted does what `Cycle.Add` promises, and likewise `Cycle.Get`. */
  lemma UninterruptedAdd(s: State, ch: Byte)
    requires Ordered(s) && s.producer.Idle?
    ensures var w, t := Waiting(s.buf, s.start, s.end), Run(s, [TestFull(ch), Store, MoveEnd], StoreFirst);
            Waiting(t.buf, t.start, t.end) == if |w| < 127 then w + [ch] else w
  {
    hide Waiting;
    var t := Next(s, TestFull(ch));
    assert [TestFull(ch), Store, MoveEnd][1..] == [Store, MoveEnd];
    assert Run(s, [TestFull(ch), Store, MoveEnd], StoreFirst) == Run(t, [Store, MoveEnd], StoreFirst);
    if t != s {
      RunBoth(t, Store, MoveEnd);
      WaitingPlus(s.buf, s.start, s.end, ch);
    } else {
      RunNeither(t, Store, MoveEnd);
    }
  }

  /** So do the two steps of the consumer. */
  lemma EitherLoad(s: State)
    requires Shape(s) && s.consumer.Takes?
    ensures Next(Next(s, Load), MoveStart) == Next(Next(s, MoveStart), Load)
    ensures Next(Next(s, Load), MoveStart) ==
            s.(start := Increase(s.start), consumer := Resting, delivered := s.delivered + [s.buf[s.start]])
  {
  }

  lemma UninterruptedGet(s: State)
    requires Ordered(s) && s.consumer.Resting?
    ensures var w := Waiting(s.buf, s.start, s.end);
            var t, u := Run(s, [TestEmpty, Load, MoveStart], StoreFirst),
              Run(s, [TestEmpty, MoveStart, Load], StoreFirst);
            && t == u
            && if w == [] then t == s
               else t.delivered == s.delivered + [w[0]] && Waiting(t.buf, t.start, t.end) == w[1..]
  {
    hide Waiting;
    var t := Next(s, TestEmpty);
    assert [TestEmpty, Load, MoveStart][1..] == [Load, MoveStart];
    assert [TestEmpty, MoveStart, Load][1..] == [MoveStart, Load];
    assert Run(s, [TestEmpty, Load, MoveStart], StoreFirst) == Run(t, [Load, MoveStart], StoreFirst);
    assert Run(s, [TestEmpty, MoveStart, Load], StoreFirst) == Run(t, [MoveStart, Load], StoreFirst);
    if t != s {
      RunBoth(t, Load, MoveStart);
      RunBoth(t, MoveStart, Load);
      EitherLoad(t);
      WaitingMinus(s.buf, s.start, s.end);
    } else {
      RunNeither(t, Load, MoveStart);
      RunNeither(t, MoveStart, Load);
    }
  }

  /** The order of the producer's two steps matters: moving the index first lets the consumer take the
      slot before the byte is in it. */
  lemma MovingFirstLosesBytes(s: State, ch: Byte)
    requires Initial(s) && s.buf[0] != ch
    ensures var t := Run(s, [TestFull(ch), MoveEnd, TestEmpty, Load, MoveStart], Unordered);
            t.accepted == [ch] && t.delivered == [s.buf[0]] && t.delivered != t.accepted
  {
    var s1 := Next(s, TestFull(ch));
    var s2 := Next(s1, MoveEnd);
    var s3 := Next(s2, TestEmpty);
    var s4 := Next(s3, Load);
    assert Run(s, [TestFull(ch), MoveEnd, TestEmpty, Load, MoveStart], Unordered)
      == Run(s1, [MoveEnd, TestEmpty, Load, MoveStart], Unordered);
    assert Run(s1, [MoveEnd, TestEmpty, Load, MoveStart], Unordered)
      == Run(s2, [TestEmpty, Load, MoveStart], Unordered);
    assert Run(s2, [TestEmpty, Load, MoveStart], Unordered) == Run(s3, [Load, MoveStart], Unordered);
    assert Run(s3, [Load, MoveStart], Unordered) == Run(s4, [MoveStart], Unordered);
    assert Run(s4, [MoveStart], Unordered) == Next(s4, MoveStart);
  }
}
