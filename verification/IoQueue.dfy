/**
  The blocking ring buffer of device/ioqueue.c, for any number of producers and consumers.

  Both operations run with interrupts off, so a task keeps the processor from one point where it blocks
  to the next; such a stretch is one step. The lock is the one module Sync proves, where its holder may
  sleep as it does here: one holder at a time, and which waiter gets it next is left open. A task that
  waited for the lock does not test the buffer again before it goes to sleep, and this is kept.
 */
module IoQueue {
  import opened Machine

  const QUEUE_BUFF_SIZE: nat := 64

  /** struct ioqueue; `lock` is the holder of its lock. */
  datatype Queue = Queue(
    buff: seq<Byte>, front: nat, tail: nat,
    producer: Option<Task>, consumer: Option<Task>, lock: Option<Task>)

  /** Which call a task is in. */
  datatype Call = Getchar | Putchar(ch: Byte)

  /** Where a stretch ends: the call returns, or the task loses the processor, or an ASSERT fails. */
  datatype Stretch =
    | Returns(q: Queue, got: seq<Byte>, woken: Option<Task>)
    | Sleeps(q: Queue)
    | WaitsForLock(q: Queue)
    | Fails(line: nat)

  predicate Shape(q: Queue)
  {
    |q.buff| == QUEUE_BUFF_SIZE && q.front < QUEUE_BUFF_SIZE && q.tail < QUEUE_BUFF_SIZE
  }

  function NextPos(pos: nat): (r: nat)
    ensures r < QUEUE_BUFF_SIZE
  {
    (pos + 1) % QUEUE_BUFF_SIZE
  }

  predicate Empty(q: Queue)
  {
    q.front == q.tail
  }

  predicate Full(q: Queue)
  {
    NextPos(q.front) == q.tail
  }

  /** The loop test of the call. */
  predicate MustWait(q: Queue, c: Call)
  {
    match c
    case Getchar => Empty(q)
    case Putchar(_) => Full(q)
  }

  function Registered(q: Queue, c: Call): Option<Task>
  {
    match c
    case Getchar => q.consumer
    case Putchar(_) => q.producer
  }

  function Register(q: Queue, c: Call, t: Option<Task>): Queue
  {
    match c
    case Getchar => q.(consumer := t)
    case Putchar(_) => q.(producer := t)
  }

  /** ioq_wait, with the lock just taken */
  function WaitInside(q: Queue, t: Task, c: Call): Stretch
  {
    if Registered(q, c) != None then Fails(52) else Sleeps(Register(q, c, Some(t)).(lock := Some(t)))
  }

  /** Behind the loop: one byte moves, and whoever is registered on the other side is woken. */
  function Transfer(q: Queue, c: Call): Stretch
    requires Shape(q)
  {
    match c
    case Getchar => Returns(q.(tail := NextPos(q.tail), producer := None), [q.buff[q.tail]], q.producer)
    case Putchar(ch) => Returns(q.(buff := q.buff[q.front := ch], front := NextPos(q.front), consumer := None), [], q.consumer)
  }

  /** The call from its loop test on. */
  function FromTest(q: Queue, t: Task, c: Call): Stretch
    requires Shape(q)
  {
    if !MustWait(q, c) then Transfer(q, c)
    else if q.lock == None then WaitInside(q, t, c)
    else WaitsForLock(q)
  }

  /** What the queue holds, the oldest byte first. */
  function Contents(q: Queue): (s: seq<Byte>)
    requires Shape(q)
    ensures |s| < QUEUE_BUFF_SIZE
  {
    seq((q.front - q.tail) % QUEUE_BUFF_SIZE, i requires 0 <= i => q.buff[(q.tail + i) % QUEUE_BUFF_SIZE])
  }

  lemma EmptyFull(q: Queue)
    requires Shape(q)
    ensures Empty(q) <==> Contents(q) == []
    ensures Full(q) <==> |Contents(q)| == QUEUE_BUFF_SIZE - 1
  {
  }

  /** The slots of the contents, by place: the next one to fill is none of them. */
  lemma Slots(front: nat, tail: nat, i: nat)
    requires front < QUEUE_BUFF_SIZE && tail < QUEUE_BUFF_SIZE && i <= (front - tail) % QUEUE_BUFF_SIZE
    ensures (tail + i) % QUEUE_BUFF_SIZE == front <==> i == (front - tail) % QUEUE_BUFF_SIZE
    ensures NextPos(front) != tail ==> (NextPos(front) - tail) % QUEUE_BUFF_SIZE == (front - tail) % QUEUE_BUFF_SIZE + 1
  {
  }

  /** A put appends. */
  lemma PutAppends(q: Queue, ch: Byte)
    requires Shape(q) && !Full(q)
    ensures Shape(Transfer(q, Putchar(ch)).q) && Contents(Transfer(q, Putchar(ch)).q) == Contents(q) + [ch]
  {
    var q' := Transfer(q, Putchar(ch)).q;
    var n := |Contents(q)|;
    Slots(q.front, q.tail, n);
    forall i | 0 <= i < n
      ensures Contents(q')[i] == Contents(q)[i]
    {
      Slots(q.front, q.tail, i);
    }
  }

  /** A get takes the oldest. */
  lemma GetTakesTheOldest(q: Queue)
    requires Shape(q) && !Empty(q)
    ensures Shape(Transfer(q, Getchar).q)
    ensures Contents(q) == Transfer(q, Getchar).got + Contents(Transfer(q, Getchar).q)
  {
    var q' := Transfer(q, Getchar).q;
    assert |Contents(q')| == |Contents(q)| - 1;
    forall i | 0 <= i < |Contents(q')|
      ensures Contents(q)[i + 1] == Contents(q')[i]
    {
      assert (NextPos(q.tail) + i) % QUEUE_BUFF_SIZE == (q.tail + i + 1) % QUEUE_BUFF_SIZE;
    }
  }

  // ---------------------------------------------------------------------------
  // In place
  // ---------------------------------------------------------------------------

  class RingBuffer {
    const buff: array<Byte>
    var front: nat
    var tail: nat
    var producer: Option<Task>
    var consumer: Option<Task>
    var lock: Option<Task>

    ghost function State(): Queue
      reads this, buff
    {
      Queue(buff[..], front, tail, producer, consumer, lock)
    }

    /** ioqueue_init */
    constructor ()
      ensures fresh(buff) && Shape(State()) && Contents(State()) == []
      ensures producer == None && consumer == None && lock == None
    {
      buff := new Byte[QUEUE_BUFF_SIZE](_ => 0);
      front, tail, producer, consumer, lock := 0, 0, None, None, None;
    }

    /**
      ioq_getchar by task t from its loop test to the point where it returns a byte (and whom it woke) or
      blocks; no byte and no failure means that it blocked.
     */
    method GetcharFromTest(t: Task) returns (ok: bool, got: seq<Byte>, woken: Option<Task>)
      requires Shape(State())
      modifies this`tail, this`producer, this`consumer, this`lock
      ensures Shape(State())
      ensures match FromTest(old(State()), t, Getchar)
              case Returns(q, b, w) => ok && State() == q && got == b && woken == w
              case Sleeps(q) => ok && State() == q && got == []
              case WaitsForLock(q) => ok && State() == q && got == []
              case Fails(_) => !ok
      ensures ok ==> old(Contents(State())) == got + Contents(State())
    {
      got, woken := [], None;
      if front == tail {
        if lock != None { return true, [], None; }
        lock := Some(t);
        if consumer != None { return false, [], None; }
        consumer := Some(t);
        return true, [], None;
      }
      GetTakesTheOldest(State());
      var ch := buff[tail];
      tail := NextPos(tail);
      if producer != None {
        woken := producer;
        producer := None;
      }
      return true, [ch], woken;
    }

    /** ioq_putchar likewise; `stored` tells whether the byte went in. */
    method PutcharFromTest(t: Task, ch: Byte) returns (ok: bool, stored: bool, woken: Option<Task>)
      requires Shape(State())
      modifies this`front, this`producer, this`consumer, this`lock, buff
      ensures Shape(State())
      ensures match FromTest(old(State()), t, Putchar(ch))
              case Returns(q, b, w) => ok && stored && State() == q && woken == w
              case Sleeps(q) => ok && !stored && State() == q
              case WaitsForLock(q) => ok && !stored && State() == q
              case Fails(_) => !ok
      ensures ok ==> Contents(State()) == old(Contents(State())) + (if stored then [ch] else [])
    {
      stored, woken := false, None;
      if NextPos(front) == tail {
        if lock != None { return true, false, None; }
        lock := Some(t);
        if producer != None { return false, false, None; }
        producer := Some(t);
        return true, false, None;
      }
      PutAppends(State(), ch);
      buff[front] := ch;
      front := NextPos(front);
      if consumer != None {
        woken := consumer;
        consumer := None;
      }
      return true, true, woken;
    }
  }

  // ---------------------------------------------------------------------------
  // Many tasks
  // ---------------------------------------------------------------------------

  /** Where a task is: asleep is inside ioq_wait, awake is woken there but not yet running again. */
  datatype Place = Outside | ForLock(c: Call) | Asleep(c: Call) | Awake(c: Call)

  /** The queue, the tasks, and, as bookkeeping, every byte put so far and every byte got. */
  datatype Sys = Sys(q: Queue, place: map<Task, Place>, put: seq<Byte>, got: seq<Byte>)

  datatype Event =
    | Begin(t: Task, c: Call)  // a task calls
    | GetLock(t: Task)         // a task that waited for the lock has it and goes on
    | Resume(t: Task)          // a woken task runs again
    | Offer(ch: Byte)          // the keyboard handler: puts unless the buffer is full

  datatype Next = Next(sys: Sys) | Assertion(line: nat) | Impossible

  function PlaceOf(sys: Sys, t: Task): Place
  {
    if t in sys.place then sys.place[t] else Outside
  }

  /** thread_unblock of the registered task, which must be asleep */
  function Wake(sys: Sys, w: Option<Task>): Next
  {
    match w
    case None => Next(sys)
    case Some(t) =>
      if PlaceOf(sys, t).Asleep? then Next(sys.(place := sys.place[t := Awake(PlaceOf(sys, t).c)]))
      else Assertion(64)
  }

  /** The stretch of a call that is at its loop test. */
  function Continue(sys: Sys, t: Task, c: Call, s: Stretch): Next
  {
    match s
    case Returns(q, got, woken) =>
      Wake(Sys(q, sys.place[t := Outside], if c.Putchar? then sys.put + [c.ch] else sys.put, sys.got + got), woken)
    case Sleeps(q) => Next(sys.(q := q, place := sys.place[t := Asleep(c)]))
    case WaitsForLock(q) => Next(sys.(q := q, place := sys.place[t := ForLock(c)]))
    case Fails(line) => Assertion(line)
  }

  function Step(sys: Sys, e: Event): Next
    requires Shape(sys.q)
  {
    match e
    case Begin(t, c) =>
      if PlaceOf(sys, t).Outside? then Continue(sys, t, c, FromTest(sys.q, t, c)) else Impossible
    case GetLock(t) =>
      if PlaceOf(sys, t).ForLock? && sys.q.lock == None then
        Continue(sys, t, PlaceOf(sys, t).c, WaitInside(sys.q, t, PlaceOf(sys, t).c))
      else Impossible
    case Resume(t) =>
      if !PlaceOf(sys, t).Awake? then Impossible
      else if sys.q.lock != Some(t) then Assertion(117)
      else
        var free := sys.(q := sys.q.(lock := None));
        Continue(free, t, PlaceOf(sys, t).c, FromTest(free.q, t, PlaceOf(sys, t).c))
    case Offer(ch) =>
      if Full(sys.q) then Next(sys)
      else
        var s := Transfer(sys.q, Putchar(ch));
        Wake(sys.(q := s.q, put := sys.put + [ch]), s.woken)
  }

  /** Asleep or woken inside ioq_wait: the holder of the lock. */
  predicate InWait(p: Place)
  {
    p.Asleep? || p.Awake?
  }

  /** Who is asleep is registered, on the side of its call, and nobody else is. */
  predicate SideOk(sys: Sys, c: Call)
  {
    match Registered(sys.q, c)
    case None => forall t :: t in sys.place && sys.place[t].Asleep? ==> sys.place[t].c.Getchar? != c.Getchar?
    case Some(w) => PlaceOf(sys, w).Asleep? && PlaceOf(sys, w).c.Getchar? == c.Getchar?
  }

  predicate Inv(sys: Sys)
  {
    && Shape(sys.q) && sys.put == sys.got + Contents(sys.q)
    && (forall t :: t in sys.place ==> (InWait(sys.place[t]) <==> sys.q.lock == Some(t)))
    && (sys.q.lock.Some? ==> sys.q.lock.value in sys.place)
    && SideOk(sys, Getchar) && SideOk(sys, Putchar(0))
  }

  /** A woken task leaves the register, not the lock; the task that returns was in neither. */
  lemma WakeKeeps(sys: Sys, sys': Sys, t: Task, c: Call)
    requires Inv(sys) && !InWait(PlaceOf(sys, t)) && Shape(sys'.q) && sys'.put == sys'.got + Contents(sys'.q)
    requires sys'.q.lock == sys.q.lock && sys'.place == sys.place[t := Outside]
    requires Registered(sys'.q, c) == None
    requires forall d: Call :: d.Getchar? != c.Getchar? ==> Registered(sys'.q, d) == Registered(sys.q, d)
    ensures Wake(sys', Registered(sys.q, c)).Next? && Inv(Wake(sys', Registered(sys.q, c)).sys)
  {
    assert SideOk(sys, c) && SideOk(sys, Getchar) && SideOk(sys, Putchar(0));
    assert Registered(sys'.q, Getchar) == None || Registered(sys'.q, Putchar(0)) == None;
  }

  lemma TransferKeeps(sys: Sys, t: Task, c: Call)
    requires Inv(sys) && !InWait(PlaceOf(sys, t)) && !MustWait(sys.q, c)
    ensures var r := Continue(sys, t, c, Transfer(sys.q, c)); r.Next? && Inv(r.sys)
  {
    var s := Transfer(sys.q, c);
    match c {
      case Getchar =>
        GetTakesTheOldest(sys.q);
        WakeKeeps(sys, Sys(s.q, sys.place[t := Outside], sys.put, sys.got + s.got), t, Putchar(0));
      case Putchar(ch) =>
        PutAppends(sys.q, ch);
        WakeKeeps(sys, Sys(s.q, sys.place[t := Outside], sys.put + [ch], sys.got + s.got), t, Getchar);
    }
  }

  lemma OfferKeeps(sys: Sys, ch: Byte)
    requires Inv(sys)
    ensures Step(sys, Offer(ch)).Next? && Inv(Step(sys, Offer(ch)).sys)
  {
    if !Full(sys.q) { PutAppends(sys.q, ch); }
  }

  /** With the lock free nobody is inside ioq_wait, so nobody is registered: line 52 cannot fail. */
  lemma WaitKeeps(sys: Sys, t: Task, c: Call)
    requires Inv(sys) && sys.q.lock == None
    ensures var r := Continue(sys, t, c, WaitInside(sys.q, t, c)); r.Next? && Inv(r.sys)
  {
  }

  lemma FromTestKeeps(sys: Sys, t: Task, c: Call)
    requires Inv(sys) && !InWait(PlaceOf(sys, t))
    ensures var r := Continue(sys, t, c, FromTest(sys.q, t, c)); r.Next? && Inv(r.sys)
  {
    if !MustWait(sys.q, c) { TransferKeeps(sys, t, c); }
    else if sys.q.lock == None { WaitKeeps(sys, t, c); }
  }

  /** Every event keeps the invariant and no assertion fails. */
  lemma StepKeeps(sys: Sys, e: Event)
    requires Inv(sys)
    ensures !Step(sys, e).Assertion? && (Step(sys, e).Next? ==> Inv(Step(sys, e).sys))
  {
    match e
    case Begin(t, c) => if PlaceOf(sys, t).Outside? { FromTestKeeps(sys, t, c); }
    case GetLock(t) => if PlaceOf(sys, t).ForLock? && sys.q.lock == None { WaitKeeps(sys, t, PlaceOf(sys, t).c); }
    case Resume(t) => if PlaceOf(sys, t).Awake? { ResumeKeeps(sys, t); }
    case Offer(ch) => OfferKeeps(sys, ch);
  }

  lemma ResumeKeeps(sys: Sys, t: Task)
    requires Inv(sys) && PlaceOf(sys, t).Awake?
    ensures Step(sys, Resume(t)).Next? && Inv(Step(sys, Resume(t)).sys)
  {
    var c := PlaceOf(sys, t).c;
    // Released: as if the task were waiting for the lock again.
    var out := sys.(q := sys.q.(lock := None), place := sys.place[t := ForLock(c)]);
    assert Contents(out.q) == Contents(sys.q);
    FromTestKeeps(out, t, c);
    var free := sys.(q := sys.q.(lock := None));
    assert free.place[t := Outside] == out.place[t := Outside];
    assert free.place[t := Asleep(c)] == out.place[t := Asleep(c)];
    assert free.place[t := ForLock(c)] == out.place[t := ForLock(c)];
  }

  /** A finite run from an initialised queue that nobody is using. */
  ghost predicate Behaviour(tr: seq<Sys>, es: seq<Event>)
  {
    && |tr| == |es| + 1
    && Shape(tr[0].q) && tr[0] == Sys(Queue(tr[0].q.buff, 0, 0, None, None, None), map[], [], [])
    && forall i :: 0 <= i < |es| ==> Shape(tr[i].q) && Step(tr[i], es[i]) == Next(tr[i + 1])
  }

  lemma {:induction false} BehavioursKeep(tr: seq<Sys>, es: seq<Event>, i: nat)
    requires Behaviour(tr, es) && i < |tr|
    ensures Inv(tr[i])
    decreases i
  {
    if i > 0 {
      BehavioursKeep(tr, es, i - 1);
      assert Step(tr[i - 1], es[i - 1]) == Next(tr[i]);
      StepKeeps(tr[i - 1], es[i - 1]);
    }
  }

  /**
    In every state of every run the bytes put are the bytes got followed by the at most 63 in the buffer,
    nobody registers over somebody else, and no event trips an assertion.
   */
  lemma Fifo(tr: seq<Sys>, es: seq<Event>, i: nat, e: Event)
    requires Behaviour(tr, es) && i < |tr|
    ensures Shape(tr[i].q) && tr[i].put == tr[i].got + Contents(tr[i].q) && tr[i].got <= tr[i].put
    ensures !Step(tr[i], e).Assertion?
  {
    BehavioursKeep(tr, es, i);
    StepKeeps(tr[i], e);
  }

  // ---------------------------------------------------------------------------
  // Does a registered task have a reason to sleep?
  // ---------------------------------------------------------------------------

  /** A registered consumer means empty, a registered producer full. */
  predicate Justified(sys: Sys)
  {
    (sys.q.consumer != None ==> Empty(sys.q)) && (sys.q.producer != None ==> Full(sys.q))
  }

  /** The step that goes to sleep without looking: it had to wait for the lock, and no longer has to wait. */
  predicate SleepsForNothing(sys: Sys, e: Event)
  {
    e.GetLock? && PlaceOf(sys, e.t).ForLock? && !MustWait(sys.q, PlaceOf(sys, e.t).c)
  }

  /** Exactly the missing second test breaks it. */
  lemma OnlyTheMissingTestBreaksIt(sys: Sys, e: Event)
    requires Inv(sys) && Justified(sys) && Step(sys, e).Next?
    ensures Justified(Step(sys, e).sys) <==> !SleepsForNothing(sys, e)
  {
    StepKeeps(sys, e);
  }

  /** Over a run: everybody registered always has a reason to sleep if and only if nobody went to sleep without looking. */
  lemma {:induction false} JustifiedRuns(tr: seq<Sys>, es: seq<Event>)
    requires Behaviour(tr, es)
    ensures (forall i :: 0 <= i < |tr| ==> Justified(tr[i])) <==>
            (forall i :: 0 <= i < |es| ==> !SleepsForNothing(tr[i], es[i]))
    decreases |es|
  {
    var n := |es|;
    if n == 0 { return; }
    BehaviourPrefix(tr, es);
    JustifiedRuns(tr[..n], es[..n - 1]);
    BehavioursKeep(tr, es, n - 1);
    assert Step(tr[n - 1], es[n - 1]) == Next(tr[n]);
    if Justified(tr[n - 1]) { OnlyTheMissingTestBreaksIt(tr[n - 1], es[n - 1]); }
    assert forall i :: 0 <= i < n ==> tr[..n][i] == tr[i];
    assert forall i :: 0 <= i < n - 1 ==> es[..n - 1][i] == es[i];
  }

  lemma BehaviourPrefix(tr: seq<Sys>, es: seq<Event>)
    requires Behaviour(tr, es) && es != []
    ensures Behaviour(tr[..|es|], es[..|es| - 1])
  {
    var n := |es|;
    forall i | 0 <= i < n - 1
      ensures Step(tr[..n][i], es[..n - 1][i]) == Next(tr[..n][i + 1])
    {
      assert Step(tr[i], es[i]) == Next(tr[i + 1]);
    }
  }

  /** It does happen: two consumers, two bytes put. The second one sleeps on a byte. */
  lemma ASleeperOnAByte(buff: seq<Byte>)
    returns (tr: seq<Sys>, es: seq<Event>)
    requires |buff| == QUEUE_BUFF_SIZE
    ensures Behaviour(tr, es) && tr[|es|].q.consumer != None && Shape(tr[|es|].q) && Contents(tr[|es|].q) != []
  {
    var s0 := Sys(Queue(buff, 0, 0, None, None, None), map[], [], []);
    es := [Begin(1, Getchar), Begin(2, Getchar), Offer(65), Offer(66), Resume(1), GetLock(2)];
    var s1 := Step(s0, es[0]).sys;
    var s2 := Step(s1, es[1]).sys;
    var s3 := Step(s2, es[2]).sys;
    var s4 := Step(s3, es[3]).sys;
    var s5 := Step(s4, es[4]).sys;
    var s6 := Step(s5, es[5]).sys;
    tr := [s0, s1, s2, s3, s4, s5, s6];
  }

  /** As the kernel uses it: one task gets, and only the keyboard handler puts. */
  predicate OneConsumer(es: seq<Event>, c: Task)
  {
    forall e :: e in es && e.Begin? ==> e == Begin(c, Getchar)
  }

  /** Then nobody else is anywhere in the queue's code. */
  predicate OnlyHere(sys: Sys, c: Task)
  {
    forall t :: t in sys.place && !sys.place[t].Outside? ==> t == c && sys.place[t].c == Getchar && !sys.place[t].ForLock?
  }

  lemma OneConsumerStep(sys: Sys, e: Event, c: Task)
    requires Inv(sys) && OnlyHere(sys, c) && Step(sys, e).Next? && (e.Begin? ==> e == Begin(c, Getchar))
    ensures OnlyHere(Step(sys, e).sys, c) && !SleepsForNothing(sys, e)
  {
    if sys.q.lock.Some? {
      assert InWait(PlaceOf(sys, sys.q.lock.value));
    }
  }

  lemma {:induction false} OneConsumerKeeps(tr: seq<Sys>, es: seq<Event>, c: Task, i: nat)
    requires Behaviour(tr, es) && OneConsumer(es, c) && i < |tr|
    ensures Inv(tr[i]) && OnlyHere(tr[i], c) && Justified(tr[i])
    decreases i
  {
    BehavioursKeep(tr, es, i);
    if i > 0 {
      OneConsumerKeeps(tr, es, c, i - 1);
      assert es[i - 1] in es && Step(tr[i - 1], es[i - 1]) == Next(tr[i]);
      OneConsumerStep(tr[i - 1], es[i - 1], c);
      OnlyTheMissingTestBreaksIt(tr[i - 1], es[i - 1]);
    }
  }

  /** One consumer never sleeps while there is a byte, and is never kept waiting for the lock. */
  lemma OneConsumerNeverStarves(tr: seq<Sys>, es: seq<Event>, c: Task, i: nat)
    requires Behaviour(tr, es) && OneConsumer(es, c) && i < |tr|
    ensures Shape(tr[i].q) && (tr[i].q.consumer != None ==> Contents(tr[i].q) == [])
    ensures Contents(tr[i].q) != [] ==> PlaceOf(tr[i], c).Outside? || PlaceOf(tr[i], c).Awake?
    ensures forall t :: t in tr[i].place ==> !tr[i].place[t].ForLock?
  {
    OneConsumerKeeps(tr, es, c, i);
    EmptyFull(tr[i].q);
  }
}
