/**
  The scheduler of thread/thread.c and the tick handler of device/timer.c, on values: each function is
  one interrupts-off section, which ends at the context switch in schedule.

  The ready queue is a sequence here; module Thread keeps it as a ring of dispatch nodes.
 */
module Scheduler {
  import opened Machine
  import opened List

  datatype Status = Running | Ready | Blocked | Waiting | Hanging | Died

  /** The fields of a PCB the scheduler reads: `ticks` is a uint8_t, `priority` a uint16_t. */
  datatype Tcb = Tcb(status: Status, ticks: nat, priority: nat)

  datatype Sched = Sched(tasks: map<Task, Tcb>, ready: seq<Task>, current: Task, idle: Task)

  /** A failed ASSERT hangs the machine. */
  datatype Result<T> = Ok(value: T) | AssertFails

  predicate Sleeping(s: Status)
  {
    s.Blocked? || s.Waiting? || s.Hanging?
  }

  /** list_find_item from the front of a queue: the last element is never looked at. */
  predicate FindItem(q: seq<Task>, t: Task)
  {
    |q| > 0 && t in q[..|q| - 1]
  }

  function SetStatus(s: Sched, t: Task, st: Status): Sched
    requires t in s.tasks
  {
    s.(tasks := s.tasks[t := s.tasks[t].(status := st)])
  }

  /** thread_unblock */
  function Unblock(s: Sched, t: Task): Result<Sched>
    requires t in s.tasks
  {
    if !Sleeping(s.tasks[t].status) then AssertFails
    else if FindItem(s.ready, t) then AssertFails
    else Ok(SetStatus(s.(ready := [t] + s.ready), t, Ready))
  }

  /** The first half of schedule: a task whose slice is over goes to the back of the queue. */
  function Requeue(s: Sched): Result<Sched>
    requires s.current in s.tasks
  {
    var cur := s.tasks[s.current];
    if cur.status.Running? then
      if FindItem(s.ready, s.current) then AssertFails
      else Ok(s.(ready := s.ready + [s.current],
                 tasks := s.tasks[s.current := cur.(ticks := cur.priority % 256, status := Ready)]))
    else Ok(s)
  }

  /** The second half: the first ready task runs; with none ready, idle is woken first. */
  function Dispatch(s: Sched): Result<Sched>
    requires s.idle in s.tasks && forall t :: t in s.ready ==> t in s.tasks
  {
    var woken := if |s.ready| == 0 then Unblock(s, s.idle) else Ok(s);
    match woken
    case AssertFails => AssertFails
    case Ok(s') =>
      if |s'.ready| == 0 then AssertFails
      else
        var next := s'.ready[0];
        Ok(SetStatus(s'.(ready := s'.ready[1..], current := next), next, Running))
  }

  /** schedule */
  function Schedule(s: Sched): Result<Sched>
    requires s.current in s.tasks && s.idle in s.tasks && forall t :: t in s.ready ==> t in s.tasks
  {
    match Requeue(s)
    case AssertFails => AssertFails
    case Ok(s') => Dispatch(s')
  }

  /** thread_block */
  function Block(s: Sched, st: Status): Result<Sched>
    requires s.current in s.tasks && s.idle in s.tasks && forall t :: t in s.ready ==> t in s.tasks
  {
    if !Sleeping(st) then AssertFails else Schedule(SetStatus(s, s.current, st))
  }

  /** thread_yield */
  function Yield(s: Sched): Result<Sched>
    requires s.current in s.tasks && s.idle in s.tasks && forall t :: t in s.ready ==> t in s.tasks
  {
    if FindItem(s.ready, s.current) then AssertFails
    else Schedule(SetStatus(s.(ready := s.ready + [s.current]), s.current, Ready))
  }

  /** thread_start, for a task that does not exist yet; the priority is truncated field by field. */
  function Start(s: Sched, t: Task, prio: nat): Result<Sched>
    requires t !in s.tasks
  {
    if FindItem(s.ready, t) then AssertFails
    else Ok(s.(ready := s.ready + [t], tasks := s.tasks[t := Tcb(Ready, prio % 256, prio % 0x1_0000)]))
  }

  /** clock_service */
  function Tick(s: Sched): Result<Sched>
    requires s.current in s.tasks && s.idle in s.tasks && forall t :: t in s.ready ==> t in s.tasks
  {
    var cur := s.tasks[s.current];
    if cur.ticks == 0 then Schedule(s)
    else Ok(s.(tasks := s.tasks[s.current := cur.(ticks := cur.ticks - 1)]))
  }

  // ---------------------------------------------------------------------------
  // The invariant
  // ---------------------------------------------------------------------------

  /**
    Exactly the current task is running; the ready queue holds exactly the ready tasks, once each;
    no task has died. The idle task needs no clause of its own.
   */
  predicate Coherent(s: Sched)
  {
    && s.current in s.tasks && s.idle in s.tasks
    && (forall t :: t in s.ready ==> t in s.tasks)
    && (forall t :: t in s.tasks ==> (s.tasks[t].status.Running? <==> t == s.current))
    && (forall t :: t in s.tasks ==> (s.tasks[t].status.Ready? <==> t in s.ready))
    && (forall t :: t in s.tasks ==> !s.tasks[t].status.Died?)
    && Distinct(s.ready)
  }

  /** The statuses of all tasks but one stay as they were. */
  predicate OthersKeep(s: Sched, s': Sched, changed: set<Task>)
  {
    && s'.tasks.Keys == s.tasks.Keys && s'.idle == s.idle
    && forall t :: t in s.tasks && t !in changed ==> s'.tasks[t] == s.tasks[t]
  }

  /** Waking a sleeping task never trips an assertion and puts it at the front. */
  lemma UnblockKeeps(s: Sched, t: Task)
    requires Coherent(s) && t in s.tasks && Sleeping(s.tasks[t].status)
    ensures Unblock(s, t).Ok?
    ensures var s' := Unblock(s, t).value;
            Coherent(s') && s'.ready == [t] + s.ready && s'.current == s.current && OthersKeep(s, s', {t})
            && s'.tasks[t].status == Ready
  {
    assert t !in s.ready;
  }

  lemma HeadAndTail(q: seq<Task>)
    requires |q| > 0 && Distinct(q)
    ensures forall t :: t in q[1..] <==> t in q && t != q[0]
    ensures Distinct(q[1..])
  {
    assert q == [q[0]] + q[1..];
  }

  /** A tick that ends a slice rotates the queue. */
  lemma SliceEndKeeps(s: Sched)
    requires Coherent(s)
    ensures Schedule(s).Ok?
    ensures var s' := Schedule(s).value;
            && Coherent(s') && s'.current == (s.ready + [s.current])[0] && s'.ready == (s.ready + [s.current])[1..]
            && s'.tasks.Keys == s.tasks.Keys && s'.idle == s.idle
            && (forall t :: t in s.tasks && t != s.current ==>
                  s'.tasks[t].ticks == s.tasks[t].ticks && (Sleeping(s.tasks[t].status) ==> s'.tasks[t] == s.tasks[t]))
            && (forall t :: t in s.tasks ==> (Sleeping(s'.tasks[t].status) <==> Sleeping(s.tasks[t].status)))
            && s'.tasks[s.current].ticks == s.tasks[s.current].priority % 256 && SamePriorities(s, s')
  {
    var q := s.ready + [s.current];
    assert s.current !in s.ready;
    HeadAndTail(q);
  }

  predicate SamePriorities(s: Sched, s': Sched)
  {
    forall t :: t in s.tasks ==> t in s'.tasks && s'.tasks[t].priority == s.tasks[t].priority
  }

  /** Slices and priorities are those they were. */
  predicate SameSlices(s: Sched, s': Sched)
  {
    SamePriorities(s, s') && forall t :: t in s.tasks ==> t in s'.tasks && s'.tasks[t].ticks == s.tasks[t].ticks
  }

  /** Only the end of a slice grants a new one: waking, blocking and yielding leave all slices alone. */
  lemma WakingReloadsNothing(s: Sched, t: Task)
    requires Coherent(s) && t in s.tasks && Unblock(s, t).Ok?
    ensures SameSlices(s, Unblock(s, t).value)
  {
  }

  lemma BlockingReloadsNothing(s: Sched, st: Status)
    requires Coherent(s) && Sleeping(st)
    ensures Block(s, st).Ok? && SameSlices(s, Block(s, st).value)
  {
    BlockKeeps(s, st);
    DispatchReloadsNothing(SetStatus(s, s.current, st));
  }

  lemma DispatchReloadsNothing(s: Sched)
    requires s.idle in s.tasks && (forall t :: t in s.ready ==> t in s.tasks) && Dispatch(s).Ok?
    ensures SameSlices(s, Dispatch(s).value)
  {
  }

  lemma YieldingReloadsNothing(s: Sched)
    requires Coherent(s)
    ensures Yield(s).Ok? && SameSlices(s, Yield(s).value)
  {
    YieldKeeps(s);
    DispatchReloadsNothing(SetStatus(s.(ready := s.ready + [s.current]), s.current, Ready));
  }

  /** Who is woken gets back what it had, but for its status. */
  lemma WokenAsItWas(s: Sched, t: Task)
    requires Coherent(s) && t in s.tasks && Sleeping(s.tasks[t].status)
    ensures Unblock(s, t).Ok? && Unblock(s, t).value.tasks == s.tasks[t := s.tasks[t].(status := Ready)]
  {
    UnblockKeeps(s, t);
  }

  /** A yield rotates the queue too, without a new slice. */
  lemma YieldKeeps(s: Sched)
    requires Coherent(s)
    ensures Yield(s).Ok?
    ensures var s' := Yield(s).value;
            && Coherent(s') && s'.current == (s.ready + [s.current])[0] && s'.ready == (s.ready + [s.current])[1..]
            && s'.tasks.Keys == s.tasks.Keys && s'.idle == s.idle
            && (forall t :: t in s.tasks ==> s'.tasks[t].ticks == s.tasks[t].ticks)
            && (forall t :: t in s.tasks && Sleeping(s.tasks[t].status) ==> s'.tasks[t] == s.tasks[t])
            && (forall t :: t in s.tasks ==> (Sleeping(s'.tasks[t].status) <==> Sleeping(s.tasks[t].status)))
  {
    var q := s.ready + [s.current];
    assert s.current !in s.ready;
    HeadAndTail(q);
  }

  /**
    The scheduler never runs dry: when a task blocks and nobody is ready, idle is asleep and is woken,
    even when idle is the task that blocks.
   */
  lemma BlockKeeps(s: Sched, st: Status)
    requires Coherent(s) && Sleeping(st)
    ensures s.ready == [] ==> s.idle == s.current || Sleeping(s.tasks[s.idle].status)
    ensures Block(s, st).Ok?
    ensures var s' := Block(s, st).value;
            && Coherent(s') && s'.tasks.Keys == s.tasks.Keys && s'.idle == s.idle
            && s'.current == (if s.ready == [] then s.idle else s.ready[0])
            && s'.ready == (if s.ready == [] then [] else s.ready[1..])
            && (s'.current != s.current ==> s'.tasks[s.current].status == st)
            && (forall t :: t in s.tasks && t != s.current && t != s'.current ==> s'.tasks[t] == s.tasks[t])
  {
    assert s.current !in s.ready;
    var s1 := SetStatus(s, s.current, st);
    assert Requeue(s1) == Ok(s1);
    if s.ready == [] {
      assert Sleeping(s1.tasks[s.idle].status);
    }
  }

  lemma StartKeeps(s: Sched, t: Task, prio: nat)
    requires Coherent(s) && t !in s.tasks
    ensures Start(s, t, prio).Ok?
    ensures var s' := Start(s, t, prio).value;
            Coherent(s') && s'.ready == s.ready + [t] && s'.current == s.current && s'.idle == s.idle
            && s'.tasks.Keys == s.tasks.Keys + {t} && (forall u :: u in s.tasks ==> s'.tasks[u] == s.tasks[u])
            && s'.tasks[t].priority % 256 == prio % 256 == s'.tasks[t].ticks && (prio < 0x1_0000 ==> s'.tasks[t].priority == prio)
  {
  }

  lemma TickKeeps(s: Sched)
    requires Coherent(s)
    ensures Tick(s).Ok?
    ensures var s' := Tick(s).value;
            && Coherent(s') && s'.tasks.Keys == s.tasks.Keys && s'.idle == s.idle
            && (forall t :: t in s.tasks && Sleeping(s.tasks[t].status) ==> s'.tasks[t] == s.tasks[t])
            && (forall t :: t in s.tasks ==> (Sleeping(s'.tasks[t].status) <==> Sleeping(s.tasks[t].status)))
  {
    if s.tasks[s.current].ticks == 0 {
      SliceEndKeeps(s);
    } else {
      CountdownKeeps(s);
    }
  }

  lemma CountdownKeeps(s: Sched)
    requires Coherent(s) && s.tasks[s.current].ticks > 0
    ensures var s' := Tick(s).value;
            && Coherent(s') && s'.tasks.Keys == s.tasks.Keys && s'.idle == s.idle
            && (forall t :: t in s.tasks && t != s.current ==> s'.tasks[t] == s.tasks[t])
            && s'.tasks[s.current].status == Running && s.tasks[s.current].status == Running
  {
  }

  // ---------------------------------------------------------------------------
  // Round robin
  // ---------------------------------------------------------------------------

  /** The states between clock interrupts when nothing else happens. */
  ghost predicate TickTrace(tr: seq<Sched>)
  {
    && |tr| > 0 && (forall i :: 0 <= i < |tr| ==> Coherent(tr[i]))
    && forall i :: 0 <= i < |tr| - 1 ==> Tick(tr[i]) == Ok(tr[i + 1])
  }

  /** Such a trace exists from every coherent state, for any number of interrupts. */
  lemma {:induction false} TickTraceExists(s: Sched, n: nat) returns (tr: seq<Sched>)
    requires Coherent(s)
    ensures TickTrace(tr) && |tr| == n + 1 && tr[0] == s
    decreases n
  {
    if n == 0 {
      tr := [s];
    } else {
      TickKeeps(s);
      var rest := TickTraceExists(Tick(s).value, n - 1);
      tr := [s] + rest;
    }
  }

  /** Interrupts until the k-th task of the ready queue gets the processor. */
  function WaitFor(s: Sched, k: nat): nat
    requires Coherent(s) && k < |s.ready|
  {
    s.tasks[s.current].ticks + 1 + SlicesAhead(s, k)
  }

  function SlicesAhead(s: Sched, k: nat): nat
    requires Coherent(s) && k <= |s.ready|
  {
    if k == 0 then 0 else SlicesAhead(s, k - 1) + s.tasks[s.ready[k - 1]].ticks + 1
  }

  /** The state in which the current slice has run out. */
  function SliceEnd(s: Sched): (s0: Sched)
    requires Coherent(s)
    ensures Coherent(s0) && s0.ready == s.ready && s0.current == s.current && s0.idle == s.idle
    ensures s0.tasks.Keys == s.tasks.Keys && forall t :: t in s.tasks && t != s.current ==> s0.tasks[t] == s.tasks[t]
  {
    s.(tasks := s.tasks[s.current := s.tasks[s.current].(ticks := 0)])
  }

  /** The rotation that follows. */
  function Rotated(s: Sched): (s': Sched)
    requires Coherent(s)
    ensures Coherent(s')
  {
    SliceEndKeeps(SliceEnd(s));
    Schedule(SliceEnd(s)).value
  }

  /** Until its slice is over the current task keeps the processor, and the slice ends the same way. */
  lemma {:induction false} SliceLasts(tr: seq<Sched>, n: nat)
    requires TickTrace(tr) && n < |tr| && n <= tr[0].tasks[tr[0].current].ticks
    ensures tr[n].current == tr[0].current && tr[n].tasks[tr[n].current].ticks == tr[0].tasks[tr[0].current].ticks - n
    ensures SliceEnd(tr[n]) == SliceEnd(tr[0])
    decreases n
  {
    if n > 0 {
      SliceLasts(tr, n - 1);
      CountsDown(tr[n - 1]);
      assert Tick(tr[n - 1]) == Ok(tr[n]);
    }
  }

  lemma CountsDown(s: Sched)
    requires Coherent(s) && s.tasks[s.current].ticks > 0
    ensures Tick(s).Ok? && Coherent(Tick(s).value)
    ensures var s1 := Tick(s).value;
            s1.current == s.current && s1.tasks[s1.current].ticks == s.tasks[s.current].ticks - 1
            && SliceEnd(s1) == SliceEnd(s)
  {
    TickKeeps(s);
  }

  lemma LastTickRotates(s: Sched)
    requires Coherent(s) && s.tasks[s.current].ticks == 0
    ensures Tick(s) == Ok(Rotated(s)) && SliceEnd(s) == s
  {
    assert SliceEnd(s) == s;
    SliceEndKeeps(s);
  }

  /** Then the queue rotates. */
  lemma SliceRunsOut(tr: seq<Sched>)
    requires TickTrace(tr) && tr[0].tasks[tr[0].current].ticks + 1 < |tr|
    ensures tr[tr[0].tasks[tr[0].current].ticks + 1] == Rotated(tr[0])
  {
    var c := tr[0].tasks[tr[0].current].ticks;
    SliceLasts(tr, c);
    LastTickRotates(tr[c]);
    assert Tick(tr[c]) == Ok(tr[c + 1]);
  }

  lemma RotatedQueue(s: Sched, k: nat)
    requires Coherent(s) && k < |s.ready|
    ensures var s' := Rotated(s);
            && s'.current == s.ready[0] && s'.ready == s.ready[1..] + [s.current]
            && (forall t :: t in s.tasks && t != s.current ==> t in s'.tasks && s'.tasks[t].ticks == s.tasks[t].ticks)
    ensures s.ready[k] in s.ready && s.current !in s.ready
  {
    SliceEndKeeps(SliceEnd(s));
  }

  /** After a rotation every task is one place further on, with the same slice. */
  lemma {:induction false} RotationShifts(s: Sched, s': Sched, k: nat)
    requires Coherent(s) && Coherent(s') && k < |s.ready|
    requires s'.current == s.ready[0] && s'.ready == s.ready[1..] + [s.current]
    requires forall t :: t in s.tasks && t != s.current ==> t in s'.tasks && s'.tasks[t].ticks == s.tasks[t].ticks
    ensures s'.tasks[s'.current].ticks + 1 + SlicesAhead(s', k) == SlicesAhead(s, k + 1)
    decreases k
  {
    assert s.current !in s.ready;
    if k > 0 {
      RotationShifts(s, s', k - 1);
      assert s'.ready[k - 1] == s.ready[k] && s.ready[k] in s.ready;
    } else {
      assert s.ready[0] in s.ready;
    }
  }

  /** One rotation brings the wait down by the slice that ended. */
  lemma WaitShrinks(s: Sched, k: nat)
    requires Coherent(s) && 0 < k < |s.ready|
    ensures k - 1 < |Rotated(s).ready| && Rotated(s).ready[k - 1] == s.ready[k]
    ensures WaitFor(s, k) == s.tasks[s.current].ticks + 1 + WaitFor(Rotated(s), k - 1)
  {
    RotatedQueue(s, k);
    RotationShifts(s, Rotated(s), k - 1);
  }

  /**
    Under clock interrupts alone, the task at place k of the ready queue gets the processor after
    exactly the rest of the current slice and the slices ahead of it, one extra interrupt each, and
    not earlier.
   */
  lemma {:induction false} RoundRobin(tr: seq<Sched>, k: nat, n: nat)
    requires TickTrace(tr) && k < |tr[0].ready| && n <= WaitFor(tr[0], k) && n < |tr|
    ensures tr[n].current == tr[0].ready[k] <==> n == WaitFor(tr[0], k)
    decreases k
  {
    var c := tr[0].tasks[tr[0].current].ticks;
    if k == 0 || n <= c {
      FirstInLine(tr, k, n);
    } else {
      Later(tr, k, n);
      RoundRobin(tr[c + 1..], k - 1, n - c - 1);
    }
  }

  /** Behind the first slice the question is the same, one place and one slice further on. */
  lemma Later(tr: seq<Sched>, k: nat, n: nat)
    requires TickTrace(tr) && 0 < k < |tr[0].ready| && n <= WaitFor(tr[0], k) && n < |tr|
    requires n > tr[0].tasks[tr[0].current].ticks
    ensures var c := tr[0].tasks[tr[0].current].ticks + 1;
            var rest := tr[c..];
            && TickTrace(rest) && k - 1 < |rest[0].ready| && rest[0].ready[k - 1] == tr[0].ready[k]
            && WaitFor(tr[0], k) == c + WaitFor(rest[0], k - 1) && n - c < |rest| && rest[n - c] == tr[n]
  {
    SliceRunsOut(tr);
    WaitShrinks(tr[0], k);
    TraceSuffix(tr, tr[0].tasks[tr[0].current].ticks + 1);
  }

  /** During the current slice nobody else runs; after it, the first in the queue does. */
  lemma FirstInLine(tr: seq<Sched>, k: nat, n: nat)
    requires TickTrace(tr) && k < |tr[0].ready| && n <= WaitFor(tr[0], k) && n < |tr|
    requires k == 0 || n <= tr[0].tasks[tr[0].current].ticks
    ensures tr[n].current == tr[0].ready[k] <==> n == WaitFor(tr[0], k)
  {
    RotatedQueue(tr[0], k);
    if n <= tr[0].tasks[tr[0].current].ticks {
      SliceLasts(tr, n);
    } else {
      SliceRunsOut(tr);
    }
  }

  lemma TraceSuffix(tr: seq<Sched>, m: nat)
    requires TickTrace(tr) && m < |tr|
    ensures TickTrace(tr[m..]) && tr[m..][0] == tr[m]
    ensures forall n :: m <= n < |tr| ==> n - m < |tr[m..]| && tr[m..][n - m] == tr[n]
  {
    var rest := tr[m..];
    forall i | 0 <= i < |rest| - 1
      ensures Tick(rest[i]) == Ok(rest[i + 1])
    {
      assert Tick(tr[m + i]) == Ok(tr[m + i + 1]);
    }
  }

  // ---------------------------------------------------------------------------
  // Whole rounds
  // ---------------------------------------------------------------------------

  /** The tasks that share the processor, the current one first. */
  function Sharing(s: Sched): seq<Task>
  {
    [s.current] + s.ready
  }

  /** The first j of them go to the back. */
  function Turned(q: seq<Task>, j: nat): seq<Task>
    requires j <= |q|
  {
    q[j..] + q[..j]
  }

  /** Interrupts until the first j slices have run out. */
  function Elapsed(s: Sched, j: nat): nat
    requires Coherent(s) && j <= |Sharing(s)|
  {
    if j == 0 then 0 else Elapsed(s, j - 1) + s.tasks[Sharing(s)[j - 1]].ticks + 1
  }

  /** After the first j slices of a round: whose turn it is, and who has a new slice. */
  predicate Midway(s: Sched, s': Sched, j: nat)
    requires j <= |Sharing(s)|
  {
    && s'.idle == s.idle && s'.tasks.Keys == s.tasks.Keys && Sharing(s') == Turned(Sharing(s), j) && SamePriorities(s, s')
    && forall t :: t in s.tasks ==>
         && s'.tasks[t].ticks == (if t in Sharing(s)[..j] then s.tasks[t].priority % 256 else s.tasks[t].ticks)
         && (Sleeping(s.tasks[t].status) ==> s'.tasks[t].status == s.tasks[t].status)
  }

  /** What a rotation does, all told. */
  lemma RotatedAll(s: Sched)
    requires Coherent(s)
    ensures var s' := Rotated(s);
            && s'.idle == s.idle && s'.tasks.Keys == s.tasks.Keys && Sharing(s') == s.ready + [s.current] && SamePriorities(s, s')
            && (forall t :: t in s.tasks ==>
                  s'.tasks[t].ticks == if t == s.current then s.tasks[t].priority % 256 else s.tasks[t].ticks)
            && (forall t :: t in s.tasks && Sleeping(s.tasks[t].status) ==> s'.tasks[t].status == s.tasks[t].status)
  {
    SliceEndKeeps(SliceEnd(s));
  }

  lemma RotationIsMidway(s: Sched, s': Sched, s'': Sched, j: nat)
    requires Coherent(s) && Coherent(s') && 0 < j <= |Sharing(s)| && Midway(s, s', j - 1) && s'' == Rotated(s')
    ensures Midway(s, s'', j)
  {
    ItsTurn(s, s', j - 1);
    RotatedAll(s');
    MidwayOn(s, s', s'', j);
  }

  lemma ItsTurn(s: Sched, s': Sched, j: nat)
    requires Coherent(s) && Coherent(s') && j < |Sharing(s)| && Midway(s, s', j)
    ensures s'.current == Sharing(s)[j] && s'.ready == Sharing(s')[1..] && Sharing(s)[j] in s.tasks
    ensures Sharing(s)[j] !in Sharing(s)[..j] && s'.tasks[s'.current].ticks == s.tasks[Sharing(s)[j]].ticks
  {
    assert s'.current == Sharing(s')[0] == Turned(Sharing(s), j)[0];
    SharedOnce(s, j);
  }

  lemma MidwayOn(s: Sched, s': Sched, s'': Sched, j: nat)
    requires 0 < j <= |Sharing(s)| && Midway(s, s', j - 1) && s'.current == Sharing(s)[j - 1] && s'.ready == Sharing(s')[1..]
    requires Sharing(s)[j - 1] !in Sharing(s)[..j - 1]
    requires s''.idle == s'.idle && s''.tasks.Keys == s'.tasks.Keys && SamePriorities(s', s'')
    requires Sharing(s'') == s'.ready + [s'.current]
    requires forall t :: t in s'.tasks ==>
               s''.tasks[t].ticks == if t == s'.current then s'.tasks[t].priority % 256 else s'.tasks[t].ticks
    requires forall t :: t in s'.tasks && Sleeping(s'.tasks[t].status) ==> s''.tasks[t].status == s'.tasks[t].status
    ensures Midway(s, s'', j)
  {
    var q := Sharing(s);
    TurnedOn(q, j - 1);
    OneMore(q, j);
    forall t | t in s.tasks
      ensures s''.tasks[t].ticks == (if t in q[..j] then s.tasks[t].priority % 256 else s.tasks[t].ticks)
      ensures Sleeping(s.tasks[t].status) ==> s''.tasks[t].status == s.tasks[t].status
    {
      assert s'.tasks[t].priority == s.tasks[t].priority && t in s'.tasks;
    }
  }

  lemma OneMore(q: seq<Task>, j: nat)
    requires 0 < j <= |q|
    ensures forall t :: t in q[..j] <==> t in q[..j - 1] || t == q[j - 1]
  {
    assert q[..j] == q[..j - 1] + [q[j - 1]];
  }

  lemma TurnedOn(q: seq<Task>, j: nat)
    requires j < |q|
    ensures Turned(q, j)[1..] + [Turned(q, j)[0]] == Turned(q, j + 1)
  {
    assert q[j..] == [q[j]] + q[j + 1..];
    assert q[..j + 1] == q[..j] + [q[j]];
  }

  lemma SharedOnce(s: Sched, j: nat)
    requires Coherent(s) && j < |Sharing(s)|
    ensures Sharing(s)[j] in s.tasks && Sharing(s)[j] !in Sharing(s)[..j]
  {
    assert s.current !in s.ready;
    if j > 0 { assert s.ready[j - 1] in s.ready; }
  }

  /** Under clock interrupts alone the first j slices of a round run out one after the other. */
  lemma {:induction false} RoundUpTo(tr: seq<Sched>, j: nat, n: nat)
    requires TickTrace(tr) && j <= |Sharing(tr[0])| && n == Elapsed(tr[0], j) < |tr|
    ensures Midway(tr[0], tr[n], j)
    decreases j
  {
    if j > 0 {
      var m := Elapsed(tr[0], j - 1);
      RoundUpTo(tr, j - 1, m);
      RoundOn(tr, j, m, n);
    } else {
      NothingElapsed(tr[0]);
    }
  }

  lemma NothingElapsed(s: Sched)
    requires Coherent(s)
    ensures Midway(s, s, 0)
  {
    assert Turned(Sharing(s), 0) == Sharing(s);
  }

  lemma RoundOn(tr: seq<Sched>, j: nat, m: nat, n: nat)
    requires TickTrace(tr) && 0 < j <= |Sharing(tr[0])| && m < n < |tr| && Midway(tr[0], tr[m], j - 1)
    requires Sharing(tr[0])[j - 1] in tr[0].tasks && n == m + tr[0].tasks[Sharing(tr[0])[j - 1]].ticks + 1
    ensures Midway(tr[0], tr[n], j)
  {
    ItsTurn(tr[0], tr[m], j - 1);
    OneTurn(tr, m);
    RotationIsMidway(tr[0], tr[m], tr[n], j);
  }

  lemma OneTurn(tr: seq<Sched>, n: nat)
    requires TickTrace(tr) && n < |tr| && n + tr[n].tasks[tr[n].current].ticks + 1 < |tr|
    ensures tr[n + tr[n].tasks[tr[n].current].ticks + 1] == Rotated(tr[n])
  {
    TraceSuffix(tr, n);
    SliceRunsOut(tr[n..]);
  }

  /** Everybody who shares the processor has a new slice, and everything else is as it was. */
  function Reloaded(s: Sched): Sched
  {
    s.(tasks := map t | t in s.tasks ::
         if t in Sharing(s) then s.tasks[t].(ticks := s.tasks[t].priority % 256) else s.tasks[t])
  }

  /**
    A whole round: after the sum of the slices of all tasks that share the processor, one more interrupt
    each, the state is the one it was, with a new slice for each of them.
   */
  lemma WholeRound(tr: seq<Sched>)
    requires TickTrace(tr) && Elapsed(tr[0], |Sharing(tr[0])|) < |tr|
    ensures tr[Elapsed(tr[0], |Sharing(tr[0])|)] == Reloaded(tr[0])
  {
    var q := Sharing(tr[0]);
    var s' := tr[Elapsed(tr[0], |q|)];
    RoundUpTo(tr, |q|, Elapsed(tr[0], |q|));
    assert Turned(q, |q|) == q && q[..|q|] == q;
    assert s'.current == Sharing(s')[0] && s'.ready == Sharing(s')[1..];
    RoundRestores(tr[0], s');
  }

  lemma RoundRestores(s: Sched, s': Sched)
    requires Coherent(s) && Coherent(s') && Midway(s, s', |Sharing(s)|) && Sharing(s)[..|Sharing(s)|] == Sharing(s)
    requires s'.current == s.current && s'.ready == s.ready
    ensures s' == Reloaded(s)
  {
    forall t | t in s.tasks
      ensures s'.tasks[t] == Reloaded(s).tasks[t]
    {
      assert t in Sharing(s) <==> t == s.current || t in s.ready;
    }
    assert s'.tasks == Reloaded(s).tasks;
  }

  /** Everybody who shares the processor has a whole slice. */
  predicate Fresh(s: Sched)
  {
    forall t :: t in Sharing(s) && t in s.tasks ==> s.tasks[t].ticks == s.tasks[t].priority % 256
  }

  /** The sum of (priority % 256 + 1) over the first j tasks. */
  function Shares(s: Sched, j: nat): nat
    requires Coherent(s) && j <= |Sharing(s)|
  {
    if j == 0 then 0
    else
      SharedOnce(s, j - 1);
      Shares(s, j - 1) + s.tasks[Sharing(s)[j - 1]].priority % 256 + 1
  }

  lemma {:induction false} FreshShares(s: Sched, j: nat)
    requires Coherent(s) && Fresh(s) && j <= |Sharing(s)|
    ensures Elapsed(s, j) == Shares(s, j)
    decreases j
  {
    if j > 0 {
      FreshShares(s, j - 1);
      SharedOnce(s, j - 1);
      assert Sharing(s)[j - 1] in Sharing(s);
    }
  }

  /**
    From a state with whole slices the schedule is periodic: every round takes the sum of the priorities, cut
    to eight bits, plus one, and ends where it began.
   */
  lemma {:induction false} Periodic(tr: seq<Sched>, rounds: nat, round: nat, m: nat)
    requires TickTrace(tr) && Fresh(tr[0]) && round == Shares(tr[0], |Sharing(tr[0])|) && m == rounds * round < |tr|
    ensures tr[m] == tr[0]
    decreases rounds
  {
    if rounds > 0 {
      OneRoundMore(rounds, round);
      Periodic(tr, rounds - 1, round, (rounds - 1) * round);
      AndAgain(tr, (rounds - 1) * round, round, m);
    }
  }

  lemma AndAgain(tr: seq<Sched>, m: nat, round: nat, n: nat)
    requires TickTrace(tr) && Fresh(tr[0]) && round == Shares(tr[0], |Sharing(tr[0])|) && n == m + round < |tr|
    requires tr[m] == tr[0]
    ensures tr[n] == tr[0]
  {
    OneRound(tr, m);
  }

  lemma OneRoundMore(rounds: nat, n: nat)
    requires rounds > 0
    ensures rounds * n == (rounds - 1) * n + n && 0 <= (rounds - 1) * n
  {
  }

  lemma OneRound(tr: seq<Sched>, m: nat)
    requires TickTrace(tr) && m < |tr| && Fresh(tr[m]) && m + Shares(tr[m], |Sharing(tr[m])|) < |tr|
    ensures tr[m + Shares(tr[m], |Sharing(tr[m])|)] == tr[m]
  {
    TraceSuffix(tr, m);
    FreshShares(tr[m], |Sharing(tr[m])|);
    WholeRound(tr[m..]);
    FreshIsReloaded(tr[m]);
  }

  lemma FreshIsReloaded(s: Sched)
    requires Coherent(s) && Fresh(s)
    ensures Reloaded(s) == s
  {
    assert Reloaded(s).tasks == s.tasks;
  }

  /** Whoever gets the processor keeps it for its slice: the task at place k of the queue, from its turn to the next. */
  lemma KeepsItsTurn(tr: seq<Sched>, k: nat, n: nat)
    requires TickTrace(tr) && k < |Sharing(tr[0])| && Elapsed(tr[0], k) <= n < Elapsed(tr[0], k + 1) && n < |tr|
    ensures tr[n].current == Sharing(tr[0])[k]
  {
    var m := Elapsed(tr[0], k);
    RoundUpTo(tr, k, m);
    ItsTurn(tr[0], tr[m], k);
    TraceSuffix(tr, m);
    SliceLasts(tr[m..], n - m);
    assert Sharing(tr[m])[0] == Turned(Sharing(tr[0]), k)[0];
  }

  /** Whose turn it is after n interrupts of a round. */
  lemma {:induction false} TurnAt(s: Sched, n: nat, j: nat) returns (k: nat)
    requires Coherent(s) && j <= |Sharing(s)| && n < Elapsed(s, j)
    ensures k < j && Elapsed(s, k) <= n < Elapsed(s, k + 1)
    ensures k == 0 <==> n <= s.tasks[s.current].ticks
    decreases j
  {
    if Elapsed(s, j - 1) <= n {
      k := j - 1;
      FirstTurn(s, k);
    } else {
      k := TurnAt(s, n, j - 1);
    }
  }

  lemma {:induction false} FirstTurn(s: Sched, j: nat)
    requires Coherent(s) && j <= |Sharing(s)|
    ensures 0 < j ==> Elapsed(s, j) > s.tasks[s.current].ticks
    ensures Elapsed(s, 1) == s.tasks[s.current].ticks + 1
    decreases j
  {
    if j > 1 { FirstTurn(s, j - 1); }
  }

  /**
    From a state with whole slices the current task runs for its priority, cut to eight bits, plus one interrupts, and
    then not again before the others have had as much each: the sum over all who share the processor.
   */
  lemma ComesBack(tr: seq<Sched>, n: nat, round: nat)
    requires TickTrace(tr) && Fresh(tr[0]) && round == Shares(tr[0], |Sharing(tr[0])|) && n <= round && n < |tr|
    ensures tr[n].current == tr[0].current <==> n <= tr[0].tasks[tr[0].current].priority % 256 || n == round
  {
    FreshShares(tr[0], |Sharing(tr[0])|);
    assert tr[0].current in Sharing(tr[0]);
    if n == round {
      OneRound(tr, 0);
    } else {
      var k := TurnAt(tr[0], n, |Sharing(tr[0])|);
      KeepsItsTurn(tr, k, n);
      OnlyFirst(tr[0], k);
    }
  }

  lemma OnlyFirst(s: Sched, k: nat)
    requires Coherent(s) && k < |Sharing(s)|
    ensures Sharing(s)[k] == s.current <==> k == 0
  {
    SharedOnce(s, k);
    assert Sharing(s)[0] == s.current;
  }
}
