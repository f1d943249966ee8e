/**
  Semaphores and re-entrant locks of thread/sync.c over the scheduler, as a step system. Every
  statement of lock_acquire and lock_release is a step of its own, so a clock interrupt may fall
  between any two of them; sema_down and sema_up run with interrupts off and are one step each, cut
  only where the task loses the processor.
 */
module Sync {
  import opened Machine
  import opened List
  import opened Scheduler

  type LockId = nat

  /** Where a task is. The numbers are lines of thread/sync.c. */
  datatype Pc =
    | Client                  // in its own code
    | AcqTest(l: LockId)      // 95: is the holder somebody else?
    | Down(l: LockId)         // 42: about to test the value, first or again after a wake-up
    | AcqHolder(l: LockId)    // 98: sema_down has returned
    | AcqCheck(l: LockId)     // 99
    | AcqCount(l: LockId)     // 100
    | AcqNest(l: LockId)      // 105
    | RelCheck(l: LockId)     // 117
    | RelTest(l: LockId)      // 119
    | RelNest(l: LockId)      // 121
    | RelCheckOne(l: LockId)  // 124
    | RelHolder(l: LockId)    // 125
    | RelCount(l: LockId)     // 126
    | Up(l: LockId)           // 127: about to call sema_up
    | IdleBlock               // cpu_idle, about to block
    | IdleHalt                // cpu_idle, halted until an interrupt

  /**
    struct lock with its semaphore; module Thread keeps the waiter queue as a ring of nodes. Two fields are
    bookkeeping and influence no step: `owner` is the task between a returned sema_down and its sema_up, and
    `woken` holds the tasks taken from the queue that have not tested the value since.
   */
  datatype Lock = Lock(
    holder: Option<Task>, repeat: int, value: nat, waiters: seq<Task>,
    owner: Option<Task>, woken: set<Task>)

  /**
    What is private to a task: its place, and, as bookkeeping, how many of its acquires have returned
    and are not yet matched by a returned release.
   */
  datatype Local = Local(pc: Pc, depth: map<LockId, nat>)

  datatype Kernel = Kernel(sched: Sched, locks: map<LockId, Lock>, local: map<Task, Local>)

  function Acquired(loc: Local, l: LockId): nat
  {
    if l in loc.depth then loc.depth[l] else 0
  }

  /**
    What happens next: an interrupt, a statement, or a choice the current task's own code makes. A task may
    block outside the lock code too, with locks held or not, as the ring buffer and the disk driver do; then
    whoever runs, or an interrupt handler, wakes it.
   */
  datatype Event =
    | ClockTick | Exec
    | CallAcquire(l: LockId) | CallRelease(l: LockId) | CallYield | CallStart(t: Task, prio: nat)
    | CallBlock(st: Status) | WakeUp(t: Task)

  /** A step, an assertion that fails at a line, or an event that cannot happen now. */
  datatype Next = Next(k: Kernel) | Fails(line: nat) | Impossible

  /** The current task and one lock change. */
  function Write(k: Kernel, l: LockId, lock: Lock, loc: Local): Kernel
  {
    k.(locks := k.locks[l := lock], local := k.local[k.sched.current := loc])
  }

  /** lock_acquire or lock_release returns. */
  function Return(loc: Local, l: LockId, change: int): Local
  {
    var d := Acquired(loc, l) + change;
    Local(Client, loc.depth[l := if d >= 0 then d else 0])
  }

  /** ASSERT(ok) at a line, then go on. */
  function Assert(ok: bool, line: nat, next: Next): Next
  {
    if ok then next else Fails(line)
  }

  function Resched(k: Kernel, r: Result<Sched>): Next
  {
    match r
    case Ok(s) => Next(k.(sched := s))
    case AssertFails => Fails(0)
  }

  /** What every step needs to be defined. */
  predicate Runnable(k: Kernel)
  {
    && k.sched.current in k.sched.tasks && k.sched.idle in k.sched.tasks
    && (forall t :: t in k.sched.ready ==> t in k.sched.tasks)
    && k.sched.current in k.local
    && (forall t :: t in k.local && !IdlePc(k.local[t].pc) && !k.local[t].pc.Client? ==> k.local[t].pc.l in k.locks)
    && (forall l, t :: l in k.locks && t in k.locks[l].waiters ==> t in k.sched.tasks)
  }

  predicate IdlePc(pc: Pc)
  {
    pc.IdleBlock? || pc.IdleHalt?
  }

  /** The lock after a task has tested the value in vain and joined the waiters. */
  function Joins(lock: Lock, cur: Task): Lock
  {
    lock.(waiters := lock.waiters + [cur], woken := lock.woken - {cur})
  }

  /** The lock after a task has found the value positive. */
  function Takes(lock: Lock, cur: Task): Lock
    requires lock.value > 0
  {
    lock.(value := lock.value - 1, owner := Some(cur), woken := lock.woken - {cur})
  }

  /** sema_down from its loop test: join the waiters and block, or take the value. */
  function DownStep(k: Kernel, l: LockId): Next
    requires Runnable(k) && l in k.locks
  {
    var lock, cur := k.locks[l], k.sched.current;
    if lock.value == 0 then
      Assert(!FindItem(lock.waiters, cur), 45,
        Resched(k.(locks := k.locks[l := Joins(lock, cur)]), Block(k.sched, Blocked)))
    else
      Assert(lock.value - 1 == 0, 59,
        Next(Write(k, l, Takes(lock, cur), k.local[cur].(pc := AcqHolder(l)))))
  }

  /** The lock after sema_up. */
  function Raised(lock: Lock): Lock
  {
    var up := lock.(value := (lock.value + 1) % 256, owner := None);
    if up.waiters == [] then up else up.(waiters := up.waiters[1..], woken := up.woken + {up.waiters[0]})
  }

  /** sema_up, and the return from lock_release */
  function UpStep(k: Kernel, l: LockId): Next
    requires Runnable(k) && l in k.locks
  {
    var lock := k.locks[l];
    var woken := if lock.waiters == [] then Ok(k.sched) else Unblock(k.sched, lock.waiters[0]);
    Assert(lock.value == 0, 72, Assert(woken.Ok?, 79, Assert(Raised(lock).value == 1, 83,
      Resched(Write(k, l, Raised(lock), Return(k.local[k.sched.current], l, -1)), woken))))
  }

  /** The statement at the current task's place. */
  function ExecStep(k: Kernel): Next
    requires Runnable(k)
  {
    var cur := k.sched.current;
    var pc := k.local[cur].pc;
    if pc.Client? then Next(k)
    else if pc.IdleBlock? then Resched(Goto(k, IdleHalt), Block(k.sched, Blocked))
    else if pc.IdleHalt? then Next(Goto(k, IdleBlock))
    else if pc.Down? then DownStep(k, pc.l)
    else if pc.Up? then UpStep(k, pc.l)
    else Statement(k, pc.l)
  }

  /** What a statement does: the assertion it makes, and the lock and private state it leaves. */
  datatype Effect = Effect(ok: bool, line: nat, lock: Lock, loc: Local)

  /** The statements of lock_acquire and lock_release other than the two semaphore calls. */
  function EffectOf(lock: Lock, cur: Task, loc: Local, l: LockId): Effect
  {
    match loc.pc
    case AcqTest(_) => Effect(true, 95, lock, loc.(pc := if lock.holder != Some(cur) then Down(l) else AcqNest(l)))
    case AcqHolder(_) => Effect(true, 98, lock.(holder := Some(cur)), loc.(pc := AcqCheck(l)))
    case AcqCheck(_) => Effect(lock.repeat == 0, 99, lock, loc.(pc := AcqCount(l)))
    case AcqCount(_) => Effect(true, 100, lock.(repeat := 1), Return(loc, l, 1))
    case AcqNest(_) => Effect(true, 105, lock.(repeat := lock.repeat + 1), Return(loc, l, 1))
    case RelCheck(_) => Effect(lock.holder == Some(cur), 117, lock, loc.(pc := RelTest(l)))
    case RelTest(_) => Effect(true, 119, lock, loc.(pc := if lock.repeat > 1 then RelNest(l) else RelCheckOne(l)))
    case RelNest(_) => Effect(true, 121, lock.(repeat := lock.repeat - 1), Return(loc, l, -1))
    case RelCheckOne(_) => Effect(lock.repeat == 1, 124, lock, loc.(pc := RelHolder(l)))
    case RelHolder(_) => Effect(true, 125, lock.(holder := None), loc.(pc := RelCount(l)))
    case RelCount(_) => Effect(true, 126, lock.(repeat := 0), loc.(pc := Up(l)))
    case _ => Effect(true, 0, lock, loc)
  }

  function Statement(k: Kernel, l: LockId): Next
    requires Runnable(k) && l in k.locks
  {
    var e := EffectOf(k.locks[l], k.sched.current, k.local[k.sched.current], l);
    Assert(e.ok, e.line, Next(Write(k, l, e.lock, e.loc)))
  }

  /** A task outside the lock code changes its place. */
  function Goto(k: Kernel, pc: Pc): Kernel
    requires k.sched.current in k.local
  {
    k.(local := k.local[k.sched.current := k.local[k.sched.current].(pc := pc)])
  }

  /** A task that has blocked in its own code. */
  predicate SleepsOutside(k: Kernel, t: Task)
  {
    t in k.sched.tasks && Sleeping(k.sched.tasks[t].status) && t in k.local && k.local[t].pc.Client?
  }

  function Step(k: Kernel, e: Event): Next
    requires Runnable(k)
  {
    var inClient := k.local[k.sched.current].pc.Client?;
    match e
    case ClockTick => Resched(k, Tick(k.sched))
    case Exec => ExecStep(k)
    case CallAcquire(l) => if inClient && l in k.locks then Next(Goto(k, AcqTest(l))) else Impossible
    case CallRelease(l) => if inClient && l in k.locks then Next(Goto(k, RelCheck(l))) else Impossible
    case CallYield => if inClient then Resched(k, Yield(k.sched)) else Impossible
    case CallStart(t, prio) =>
      if inClient && t !in k.sched.tasks then
        Resched(k.(local := k.local[t := Local(Client, map[])]), Start(k.sched, t, prio))
      else Impossible
    case CallBlock(st) => if inClient && Sleeping(st) then Resched(k, Block(k.sched, st)) else Impossible
    case WakeUp(t) => if SleepsOutside(k, t) then Resched(k, Unblock(k.sched, t)) else Impossible
  }

  // ---------------------------------------------------------------------------
  // The invariant
  // ---------------------------------------------------------------------------

  /** Between a returned sema_down and the matching sema_up of l. */
  predicate InSection(loc: Local, l: LockId)
  {
    Acquired(loc, l) > 0 || loc.pc == AcqHolder(l) || loc.pc == AcqCheck(l) || loc.pc == AcqCount(l)
  }

  predicate InvTasks(k: Kernel)
  {
    && Coherent(k.sched) && k.local.Keys == k.sched.tasks.Keys
    && (forall t :: t in k.local ==> (IdlePc(k.local[t].pc) <==> t == k.sched.idle))
    && (forall t :: t in k.local && !IdlePc(k.local[t].pc) && !k.local[t].pc.Client? ==> k.local[t].pc.l in k.locks)
  }

  /** A waiter is blocked inside sema_down of that lock; so nobody waits twice, or on two locks. */
  predicate WaitersBlocked(k: Kernel)
  {
    && (forall l :: l in k.locks ==> Distinct(k.locks[l].waiters))
    && (forall l, t :: l in k.locks && t in k.locks[l].waiters ==>
          && t in k.local && k.local[t].pc == Down(l)
          && t in k.sched.tasks && k.sched.tasks[t].status == Blocked)
  }

  /** A task that sleeps, other than idle, has blocked in its own code or is in the queue of the lock it waits for. */
  predicate SleeperWaits(k: Kernel, t: Task)
    requires t in k.sched.tasks
  {
    t != k.sched.idle && Sleeping(k.sched.tasks[t].status) ==>
      && t in k.local
      && (k.local[t].pc.Client? ||
           (k.local[t].pc.Down? && k.local[t].pc.l in k.locks && t in k.locks[k.local[t].pc.l].waiters))
  }

  predicate InvWaiters(k: Kernel)
  {
    WaitersBlocked(k) && forall t :: t in k.sched.tasks ==> SleeperWaits(k, t)
  }

  /** The fields of a lock, by where its owner is. */
  predicate HolderOk(lock: Lock, t: Task, loc: Local, l: LockId)
  {
    var d := Acquired(loc, l);
    if loc.pc == AcqHolder(l) then lock.holder == None && lock.repeat == 0 && d == 0
    else if loc.pc == AcqCheck(l) || loc.pc == AcqCount(l) then lock.holder == Some(t) && lock.repeat == 0 && d == 0
    else if loc.pc == RelCount(l) then lock.holder == None && lock.repeat == 1 && d == 1
    else if loc.pc == Up(l) then lock.holder == None && lock.repeat == 0 && d == 1
    else lock.holder == Some(t) && lock.repeat == d > 0
  }

  /**
    The token: the value is 1 when nobody is in the section and 0 when somebody, and only one, is. The
    count is the number of acquires of the holder, outside the two places where ownership is handed over.
   */
  predicate LockOk(lock: Lock, l: LockId, local: map<Task, Local>)
  {
    && lock.value == (if lock.owner.None? then 1 else 0)
    && (forall t :: t in local ==> (InSection(local[t], l) <==> lock.owner == Some(t)))
    && match lock.owner
       case None => lock.holder == None && lock.repeat == 0
       case Some(t) => t in local && HolderOk(lock, t, local[t], l)
  }

  /** What the place of a task says about its own acquires. */
  predicate PlaceOk(loc: Local)
  {
    match loc.pc
    case Down(l) => Acquired(loc, l) == 0
    case AcqNest(l) => Acquired(loc, l) > 0
    case RelTest(l) => Acquired(loc, l) > 0
    case RelNest(l) => Acquired(loc, l) > 1
    case RelCheckOne(l) => Acquired(loc, l) == 1
    case RelHolder(l) => Acquired(loc, l) == 1
    case RelCount(l) => Acquired(loc, l) == 1
    case Up(l) => Acquired(loc, l) == 1
    case _ => true
  }

  predicate InvLocks(k: Kernel)
  {
    && (forall l :: l in k.locks ==> LockOk(k.locks[l], l, k.local))
    && (forall t :: t in k.local ==> PlaceOk(k.local[t]))
  }

  /** A task that is inside sema_down of l, awake, and about to test the value. */
  predicate AboutToTest(k: Kernel, t: Task, l: LockId)
  {
    t in k.local && k.local[t].pc == Down(l) && t in k.sched.tasks && !Sleeping(k.sched.tasks[t].status)
  }

  /** No lost wake-up: when a free semaphore has waiters, a task woken from its queue is on its way to it. */
  predicate WakeOk(k: Kernel, l: LockId)
    requires l in k.locks
  {
    k.locks[l].value == 1 && k.locks[l].waiters != [] ==> exists t :: t in k.locks[l].woken && AboutToTest(k, t, l)
  }

  predicate Inv(k: Kernel)
  {
    && InvTasks(k) && InvWaiters(k) && InvLocks(k)
    && forall l :: l in k.locks ==> WakeOk(k, l)
  }

  lemma InvIsRunnable(k: Kernel)
    requires InvTasks(k) && InvWaiters(k)
    ensures Runnable(k)
  {
  }

  // ---------------------------------------------------------------------------
  // Steps that only move the processor
  // ---------------------------------------------------------------------------

  lemma SameWakes(k: Kernel, k': Kernel, l: LockId)
    requires l in k.locks && WakeOk(k, l) && l in k'.locks && k'.locks[l].value == k.locks[l].value
    requires k'.locks[l].waiters == k.locks[l].waiters && k'.locks[l].woken == k.locks[l].woken
    requires forall t :: t in k.local && AboutToTest(k, t, l) ==> AboutToTest(k', t, l)
    ensures WakeOk(k', l)
  {
    if k.locks[l].value == 1 && k.locks[l].waiters != [] {
      var t :| t in k.locks[l].woken && AboutToTest(k, t, l);
      assert AboutToTest(k', t, l);
    }
  }

  /** A change of the schedule that puts to sleep and wakes only idle and tasks in their own code keeps everything else. */
  lemma ScheduleOnly(k: Kernel, s: Sched)
    requires Inv(k) && Coherent(s) && OnlyClientsSleep(k, s)
    ensures Inv(k.(sched := s))
  {
    var k' := k.(sched := s);
    ClientsSleepFreely(k, k');
    forall l | l in k'.locks
      ensures WakeOk(k', l)
    {
      SameWakes(k, k', l);
    }
  }

  predicate OnlyClientsSleep(k: Kernel, s: Sched)
  {
    && s.tasks.Keys == k.sched.tasks.Keys && s.idle == k.sched.idle
    && forall t :: t in s.tasks && t in k.local && t != s.idle && !k.local[t].pc.Client? ==>
         && (Sleeping(s.tasks[t].status) <==> Sleeping(k.sched.tasks[t].status))
         && (Sleeping(s.tasks[t].status) ==> s.tasks[t] == k.sched.tasks[t])
  }

  lemma ClientsSleepFreely(k: Kernel, k': Kernel)
    requires InvTasks(k) && InvWaiters(k) && OnlyClientsSleep(k, k'.sched) && k'.locks == k.locks && k'.local == k.local
    ensures InvWaiters(k')
  {
    forall t | t in k'.sched.tasks
      ensures SleeperWaits(k', t)
    {
      assert SleeperWaits(k, t);
    }
  }

  // ---------------------------------------------------------------------------
  // Steps of the current task on one lock that leave its semaphore alone
  // ---------------------------------------------------------------------------

  /** A place that concerns no lock but l. */
  predicate About(pc: Pc, l: LockId)
  {
    pc.Client? || (!IdlePc(pc) && pc.l == l)
  }

  /** Two private states that differ only in what concerns l. */
  predicate SameElsewhere(loc: Local, loc': Local, l: LockId)
  {
    && About(loc.pc, l) && About(loc'.pc, l)
    && loc'.depth - {l} == loc.depth - {l}
  }

  lemma ElsewhereUntouched(loc: Local, loc': Local, l: LockId, m: LockId)
    requires SameElsewhere(loc, loc', l) && m != l
    ensures Acquired(loc', m) == Acquired(loc, m)
    ensures InSection(loc', m) <==> InSection(loc, m)
    ensures forall lock, t :: HolderOk(lock, t, loc', m) <==> HolderOk(lock, t, loc, m)
  {
    assert m in loc.depth - {l} <==> m in loc'.depth - {l};
    assert m in loc.depth ==> (loc.depth - {l})[m] == (loc'.depth - {l})[m];
  }

  lemma OtherLockKeeps(lock: Lock, local: map<Task, Local>, cur: Task, loc': Local, l: LockId, m: LockId)
    requires cur in local && SameElsewhere(local[cur], loc', l) && m != l
    requires LockOk(lock, m, local)
    ensures LockOk(lock, m, local[cur := loc'])
  {
    ElsewhereUntouched(local[cur], loc', l, m);
  }

  /** The current task moves from one place about l to another, and l changes; the semaphores may too. */
  lemma LocksKeep(k: Kernel, k': Kernel, l: LockId, loc': Local)
    requires InvLocks(k) && k.sched.current in k.local && l in k.locks && l in k'.locks
    requires k'.locks == k.locks[l := k'.locks[l]] && k'.local == k.local[k.sched.current := loc']
    requires SameElsewhere(k.local[k.sched.current], loc', l)
    requires LockOk(k'.locks[l], l, k'.local) && PlaceOk(loc')
    ensures InvLocks(k')
  {
    forall m | m in k'.locks
      ensures LockOk(k'.locks[m], m, k'.local)
    {
      if m != l { OtherLockKeeps(k.locks[m], k.local, k.sched.current, loc', l, m); }
    }
  }

  /** The current task is at a place about l, before and after, and the waiters of l are the same. */
  predicate Moved(k: Kernel, k': Kernel, l: LockId, loc': Local)
  {
    && k.sched.current in k.local && l in k.locks && l in k'.locks
    && k'.sched == k.sched && k'.locks == k.locks[l := k'.locks[l]] && k'.local == k.local[k.sched.current := loc']
    && About(k.local[k.sched.current].pc, l) && About(loc'.pc, l) && k'.locks[l].waiters == k.locks[l].waiters
  }

  lemma MovedTasks(k: Kernel, k': Kernel, l: LockId, loc': Local)
    requires InvTasks(k) && Moved(k, k', l, loc')
    ensures InvTasks(k')
  {
  }

  lemma MovedQueues(k: Kernel, k': Kernel, l: LockId, loc': Local)
    requires InvTasks(k) && WaitersBlocked(k) && Moved(k, k', l, loc')
    ensures WaitersBlocked(k')
  {
    assert forall m :: m in k.locks ==> m in k'.locks && k'.locks[m].waiters == k.locks[m].waiters;
    forall m, t | m in k'.locks && t in k'.locks[m].waiters
      ensures t in k'.local && k'.local[t].pc == Down(m) && t in k'.sched.tasks && k'.sched.tasks[t].status == Blocked
    {
      RunnerIsNoWaiter(k, m, t);
    }
  }

  lemma RunnerIsNoWaiter(k: Kernel, m: LockId, t: Task)
    requires Coherent(k.sched) && WaitersBlocked(k) && m in k.locks && t in k.locks[m].waiters
    ensures t != k.sched.current && t in k.local && k.local[t].pc == Down(m)
    ensures t in k.sched.tasks && k.sched.tasks[t].status == Blocked
  {
  }

  lemma MovedSleepers(k: Kernel, k': Kernel, l: LockId, loc': Local, t: Task)
    requires Moved(k, k', l, loc') && t in k.sched.tasks && SleeperWaits(k, t)
    requires k.sched.current in k.sched.tasks && k.sched.tasks[k.sched.current].status == Running
    ensures SleeperWaits(k', t)
  {
  }

  /** A task that neither was nor is in sema_down moves: no waiter is concerned. */
  lemma LocalKeepsWaiters(k: Kernel, k': Kernel, l: LockId, loc': Local)
    requires InvTasks(k) && InvWaiters(k) && Moved(k, k', l, loc')
    ensures InvTasks(k') && InvWaiters(k')
  {
    MovedTasks(k, k', l, loc');
    MovedQueues(k, k', l, loc');
    forall t | t in k'.sched.tasks
      ensures SleeperWaits(k', t)
    {
      MovedSleepers(k, k', l, loc', t);
    }
  }

  lemma MovedWakes(k: Kernel, k': Kernel, l: LockId, loc': Local, m: LockId)
    requires Moved(k, k', l, loc') && !k.local[k.sched.current].pc.Down? && m in k.locks && WakeOk(k, m)
    requires k'.locks[l].value == k.locks[l].value && k'.locks[l].woken == k.locks[l].woken
    ensures WakeOk(k', m)
  {
    SameWakes(k, k', m);
  }

  lemma LocalStepKeeps(k: Kernel, k': Kernel, l: LockId, loc': Local)
    requires Inv(k) && Moved(k, k', l, loc')
    requires SameElsewhere(k.local[k.sched.current], loc', l) && !k.local[k.sched.current].pc.Down?
    requires k'.locks[l].value == k.locks[l].value && k'.locks[l].woken == k.locks[l].woken
    requires LockOk(k'.locks[l], l, k'.local) && PlaceOk(loc')
    ensures Inv(k')
  {
    LocksKeep(k, k', l, loc');
    LocalKeepsWaiters(k, k', l, loc');
    forall m | m in k'.locks
      ensures WakeOk(k', m)
    {
      MovedWakes(k, k', l, loc', m);
    }
  }

  predicate AtStatement(loc: Local, l: LockId)
  {
    !IdlePc(loc.pc) && !loc.pc.Client? && !loc.pc.Down? && !loc.pc.Up? && loc.pc.l == l
  }

  /** What the statements do to one lock and one task, on their own. */
  lemma EffectKeeps(lock: Lock, l: LockId, cur: Task, local: map<Task, Local>)
    requires cur in local && LockOk(lock, l, local) && PlaceOk(local[cur]) && AtStatement(local[cur], l)
    ensures var loc := local[cur];
            var e := EffectOf(lock, cur, loc, l);
            && (!e.ok <==> loc.pc == RelCheck(l) && Acquired(loc, l) == 0)
            && (e.ok ==> LockOk(e.lock, l, local[cur := e.loc]) && PlaceOk(e.loc))
            && SameElsewhere(loc, e.loc, l) && e.lock.value == lock.value && e.lock.waiters == lock.waiters
              && e.lock.woken == lock.woken
  {
    var loc := local[cur];
    var e := EffectOf(lock, cur, loc, l);
    assert InSection(loc, l) <==> lock.owner == Some(cur);
    assert e.ok ==> (InSection(e.loc, l) <==> InSection(loc, l));
  }

  /** The only assertion a statement can trip is the one on line 117, for a task without an acquire. */
  lemma StatementKeeps(k: Kernel, l: LockId)
    requires Inv(k) && Runnable(k) && l in k.locks && AtStatement(k.local[k.sched.current], l)
    ensures match Statement(k, l)
            case Next(k') => Inv(k')
            case Fails(line) => line == 117
            case Impossible => false
    ensures Statement(k, l).Fails? <==>
            k.local[k.sched.current].pc == RelCheck(l) && Acquired(k.local[k.sched.current], l) == 0
  {
    var cur := k.sched.current;
    assert LockOk(k.locks[l], l, k.local) && PlaceOk(k.local[cur]);
    EffectKeeps(k.locks[l], l, cur, k.local);
    var e := EffectOf(k.locks[l], cur, k.local[cur], l);
    if e.ok {
      LocalStepKeeps(k, Write(k, l, e.lock, e.loc), l, e.loc);
    }
  }

  // ---------------------------------------------------------------------------
  // The two semaphore calls
  // ---------------------------------------------------------------------------

  /** A task that finds the value 1 takes it and is in the section. */
  lemma TakenLockOk(lock: Lock, l: LockId, cur: Task, local: map<Task, Local>)
    requires cur in local && LockOk(lock, l, local) && PlaceOk(local[cur]) && local[cur].pc == Down(l) && lock.value != 0
    ensures lock.value == 1
    ensures LockOk(Takes(lock, cur), l, local[cur := local[cur].(pc := AcqHolder(l))])
  {
  }

  lemma TakeWakes(k: Kernel, k': Kernel, l: LockId, m: LockId)
    requires k.sched.current in k.local && Moved(k, k', l, k.local[k.sched.current].(pc := AcqHolder(l)))
    requires k'.locks[l].value == 0
    requires m in k.locks && WakeOk(k, m) && k.local[k.sched.current].pc == Down(l)
    ensures WakeOk(k', m)
  {
    if m != l { SameWakes(k, k', m); }
  }

  lemma TakeKeeps(k: Kernel, l: LockId)
    requires Inv(k) && Runnable(k) && l in k.locks && k.local[k.sched.current].pc == Down(l) && k.locks[l].value != 0
    ensures DownStep(k, l).Next? && Inv(DownStep(k, l).k)
  {
    var cur := k.sched.current;
    var loc' := k.local[cur].(pc := AcqHolder(l));
    assert LockOk(k.locks[l], l, k.local) && PlaceOk(k.local[cur]);
    TakenLockOk(k.locks[l], l, cur, k.local);
    TakenKeeps(k, DownStep(k, l).k, l, loc');
  }

  lemma TakenKeeps(k: Kernel, k': Kernel, l: LockId, loc': Local)
    requires Inv(k) && Moved(k, k', l, loc') && k.local[k.sched.current].pc == Down(l)
    requires loc' == k.local[k.sched.current].(pc := AcqHolder(l)) && k'.locks[l].value == 0
             && LockOk(k'.locks[l], l, k'.local)
    ensures Inv(k')
  {
    LocksKeep(k, k', l, loc');
    LocalKeepsWaiters(k, k', l, loc');
    forall m | m in k'.locks
      ensures WakeOk(k', m)
    {
      TakeWakes(k, k', l, m);
    }
  }

  /** The current task, not idle, has gone to sleep; of the others at most idle was woken. */
  predicate WentToSleep(s: Sched, s': Sched)
  {
    && Coherent(s') && s'.tasks.Keys == s.tasks.Keys && s'.idle == s.idle && s.current in s.tasks
    && s'.tasks[s.current].status == Blocked
    && forall t :: t in s.tasks && t != s.current && t != s.idle ==>
         (Sleeping(s'.tasks[t].status) <==> Sleeping(s.tasks[t].status))
         && (Sleeping(s.tasks[t].status) ==> s'.tasks[t] == s.tasks[t])
  }

  lemma BlockedCurrentSleeps(s: Sched)
    requires Coherent(s) && s.current != s.idle
    ensures Block(s, Blocked).Ok? && WentToSleep(s, Block(s, Blocked).value)
  {
    BlockKeeps(s, Blocked);
    if s.ready != [] { assert s.ready[0] in s.ready; }
  }

  lemma WaitKeepsWaiters(k: Kernel, k': Kernel, l: LockId)
    requires InvTasks(k) && InvWaiters(k) && l in k.locks && k.local[k.sched.current].pc == Down(l)
    requires WentToSleep(k.sched, k'.sched) && k'.local == k.local && k.sched.current !in k.locks[l].waiters
    requires k'.locks == k.locks[l := Joins(k.locks[l], k.sched.current)]
    ensures InvTasks(k') && InvWaiters(k')
  {
    var w := k'.locks[l].waiters;
    assert forall t :: t in w <==> t in k.locks[l].waiters || t == k.sched.current;
    forall m, t | m in k'.locks && t in k'.locks[m].waiters
      ensures t in k'.local && k'.local[t].pc == Down(m) && t in k'.sched.tasks && k'.sched.tasks[t].status == Blocked
    {
      if t != k.sched.current { assert t in k.locks[m].waiters; }
    }
    forall t | t in k'.sched.tasks
      ensures SleeperWaits(k', t)
    {
      assert SleeperWaits(k, t);
    }
  }

  lemma WaitKeepsRest(k: Kernel, k': Kernel, l: LockId)
    requires Inv(k) && l in k.locks && k.local[k.sched.current].pc == Down(l) && k.locks[l].value == 0
    requires k.sched.current != k.sched.idle && WentToSleep(k.sched, k'.sched) && k'.local == k.local
    requires k'.locks == k.locks[l := Joins(k.locks[l], k.sched.current)]
    ensures InvLocks(k') && forall m :: m in k'.locks ==> WakeOk(k', m)
  {
    forall m | m in k'.locks
      ensures LockOk(k'.locks[m], m, k'.local)
    {
      assert LockOk(k.locks[m], m, k.local);
    }
    forall m | m in k'.locks
      ensures WakeOk(k', m)
    {
      if m != l {
        SameWakes(k, k', m);
      }
    }
  }

  lemma RunnerDoesNotWait(k: Kernel, l: LockId)
    requires InvTasks(k) && WaitersBlocked(k) && l in k.locks && k.local[k.sched.current].pc == Down(l)
    ensures k.sched.current !in k.locks[l].waiters && k.sched.current != k.sched.idle
  {
    assert k.sched.tasks[k.sched.current].status == Running;
  }

  /** A task that finds the value 0 joins the waiters and loses the processor. */
  lemma WaitEffect(k: Kernel, l: LockId)
    requires Runnable(k) && Coherent(k.sched) && l in k.locks && k.locks[l].value == 0
    requires k.sched.current !in k.locks[l].waiters && k.sched.current != k.sched.idle
    ensures DownStep(k, l).Next?
    ensures var k' := DownStep(k, l).k;
            WentToSleep(k.sched, k'.sched) && k'.local == k.local
            && k'.locks == k.locks[l := Joins(k.locks[l], k.sched.current)]
            && k'.locks[l].waiters == k.locks[l].waiters + [k.sched.current]
  {
    BlockedCurrentSleeps(k.sched);
  }

  lemma WaitKeeps(k: Kernel, l: LockId)
    requires Inv(k) && Runnable(k) && l in k.locks && k.local[k.sched.current].pc == Down(l) && k.locks[l].value == 0
    ensures DownStep(k, l).Next? && Inv(DownStep(k, l).k)
    ensures var k' := DownStep(k, l).k;
            && l in k'.locks && k'.locks[l].waiters == k.locks[l].waiters + [k.sched.current]
            && k'.sched.tasks[k.sched.current].status == Blocked && k'.sched.current != k.sched.current
  {
    RunnerDoesNotWait(k, l);
    WaitEffect(k, l);
    WaitKeepsWaiters(k, DownStep(k, l).k, l);
    WaitKeepsRest(k, DownStep(k, l).k, l);
  }

  /** The first waiter, if there is one, is ready now. */
  predicate WokenFirst(s: Sched, s': Sched, waiters: seq<Task>)
  {
    if waiters == [] then s' == s
    else
      && s'.tasks.Keys == s.tasks.Keys && s'.idle == s.idle && s'.current == s.current
      && waiters[0] in s.tasks && s'.tasks[waiters[0]].status == Ready
      && forall t :: t in s.tasks && t != waiters[0] ==> s'.tasks[t] == s.tasks[t]
  }

  lemma RaiseKeepsTasks(k: Kernel, k': Kernel, l: LockId, loc': Local)
    requires InvTasks(k) && l in k.locks && k.local[k.sched.current].pc == Up(l) && loc'.pc == Client
    requires WokenFirst(k.sched, k'.sched, k.locks[l].waiters) && Coherent(k'.sched)
    requires k'.locks == k.locks[l := Raised(k.locks[l])] && k'.local == k.local[k.sched.current := loc']
    ensures InvTasks(k')
  {
  }

  lemma RaiseKeepsQueues(k: Kernel, k': Kernel, l: LockId, loc': Local)
    requires WaitersBlocked(k) && l in k.locks && k.sched.current in k.local && k.local[k.sched.current].pc == Up(l)
    requires WokenFirst(k.sched, k'.sched, k.locks[l].waiters)
    requires k'.locks == k.locks[l := Raised(k.locks[l])] && k'.local == k.local[k.sched.current := loc']
    ensures WaitersBlocked(k')
  {
    var w := k.locks[l].waiters;
    if w != [] {
      HeadAndTail(w);
    }
    forall m, t | m in k'.locks && t in k'.locks[m].waiters
      ensures t in k'.local && k'.local[t].pc == Down(m) && t in k'.sched.tasks && k'.sched.tasks[t].status == Blocked
    {
      assert t in k.locks[m].waiters;
      if w != [] { assert w[0] in w; }
    }
  }

  lemma RaiseKeepsSleeper(k: Kernel, k': Kernel, l: LockId, loc': Local, t: Task)
    requires l in k.locks && k.sched.current in k.sched.tasks && k.sched.tasks[k.sched.current].status == Running
    requires WokenFirst(k.sched, k'.sched, k.locks[l].waiters) && Distinct(k.locks[l].waiters)
    requires k'.locks == k.locks[l := Raised(k.locks[l])] && k'.local == k.local[k.sched.current := loc']
    requires t in k.sched.tasks && SleeperWaits(k, t)
    ensures t in k'.sched.tasks && SleeperWaits(k', t)
  {
    var w := k.locks[l].waiters;
    if w != [] {
      HeadAndTail(w);
    }
  }

  lemma RaiseKeepsWaiters(k: Kernel, k': Kernel, l: LockId, loc': Local)
    requires InvTasks(k) && InvWaiters(k) && l in k.locks && k.local[k.sched.current].pc == Up(l) && loc'.pc == Client
    requires WokenFirst(k.sched, k'.sched, k.locks[l].waiters) && Coherent(k'.sched)
    requires k'.locks == k.locks[l := Raised(k.locks[l])] && k'.local == k.local[k.sched.current := loc']
    ensures InvTasks(k') && InvWaiters(k')
  {
    RaiseKeepsTasks(k, k', l, loc');
    RaiseKeepsQueues(k, k', l, loc');
    forall t | t in k'.sched.tasks
      ensures SleeperWaits(k', t)
    {
      RaiseKeepsSleeper(k, k', l, loc', t);
    }
  }

  lemma RaiseKeepsWakes(k: Kernel, k': Kernel, l: LockId, m: LockId, loc': Local)
    requires InvTasks(k) && InvWaiters(k) && l in k.locks && k.local[k.sched.current].pc == Up(l)
    requires WokenFirst(k.sched, k'.sched, k.locks[l].waiters) && m in k.locks && WakeOk(k, m)
    requires k'.locks == k.locks[l := Raised(k.locks[l])] && k'.local == k.local[k.sched.current := loc']
    ensures WakeOk(k', m)
  {
    var w := k.locks[l].waiters;
    if w != [] {
      assert w[0] in w;
    }
    if m == l {
      assert w != [] ==> AboutToTest(k', w[0], l);
    } else {
      SameWakes(k, k', m);
    }
  }

  lemma WakeFirst(k: Kernel, l: LockId)
    requires InvTasks(k) && InvWaiters(k) && l in k.locks && k.locks[l].waiters != []
    ensures k.locks[l].waiters[0] in k.sched.tasks
    ensures var r := Unblock(k.sched, k.locks[l].waiters[0]);
            r.Ok? && WokenFirst(k.sched, r.value, k.locks[l].waiters) && Coherent(r.value)
  {
    var w := k.locks[l].waiters;
    assert w[0] in w;
    UnblockKeeps(k.sched, w[0]);
  }

  /** sema_up takes the token back: nobody is in the section any more. */
  lemma RaisedLockOk(lock: Lock, l: LockId, cur: Task, local: map<Task, Local>)
    requires cur in local && LockOk(lock, l, local) && PlaceOk(local[cur]) && local[cur].pc == Up(l)
    ensures lock.value == 0 && LockOk(Raised(lock), l, local[cur := Return(local[cur], l, -1)])
  {
    assert InSection(local[cur], l);
    assert !InSection(Return(local[cur], l, -1), l);
  }

  /** Raising never finds the value at 1, and wakes the first waiter, if any. */
  lemma RaiseKeeps(k: Kernel, l: LockId)
    requires Inv(k) && Runnable(k) && l in k.locks && k.local[k.sched.current].pc == Up(l)
    ensures UpStep(k, l).Next? && Inv(UpStep(k, l).k)
  {
    var cur := k.sched.current;
    var lock := k.locks[l];
    assert LockOk(lock, l, k.local) && PlaceOk(k.local[cur]);
    RaisedLockOk(lock, l, cur, k.local);
    if lock.waiters != [] { WakeFirst(k, l); }
    var s' := if lock.waiters == [] then k.sched else Unblock(k.sched, lock.waiters[0]).value;
    var loc' := Return(k.local[cur], l, -1);
    RaisedKeeps(k, Write(k, l, Raised(lock), loc').(sched := s'), l, loc');
  }

  lemma ReturnElsewhere(loc: Local, l: LockId, change: int)
    requires About(loc.pc, l)
    ensures SameElsewhere(loc, Return(loc, l, change), l) && PlaceOk(Return(loc, l, change))
  {
  }

  lemma RaisedKeeps(k: Kernel, k': Kernel, l: LockId, loc': Local)
    requires Inv(k) && l in k.locks && k.local[k.sched.current].pc == Up(l) && loc' == Return(k.local[k.sched.current], l, -1)
    requires WokenFirst(k.sched, k'.sched, k.locks[l].waiters) && Coherent(k'.sched)
    requires k'.locks == k.locks[l := Raised(k.locks[l])] && k'.local == k.local[k.sched.current := loc']
    requires LockOk(Raised(k.locks[l]), l, k'.local)
    ensures Inv(k')
  {
    ReturnElsewhere(k.local[k.sched.current], l, -1);
    LocksKeep(k, k', l, loc');
    RaiseKeepsWaiters(k, k', l, loc');
    forall m | m in k'.locks
      ensures WakeOk(k', m)
    {
      RaiseKeepsWakes(k, k', l, m, loc');
    }
  }

  // ---------------------------------------------------------------------------
  // Calls, interrupts, idle
  // ---------------------------------------------------------------------------

  /** A task in its own code enters lock_acquire or lock_release. */
  lemma CallKeeps(k: Kernel, l: LockId, pc: Pc)
    requires Inv(k) && Runnable(k) && l in k.locks && k.local[k.sched.current].pc == Client
    requires pc == AcqTest(l) || pc == RelCheck(l)
    ensures Inv(Goto(k, pc))
  {
    CallMoves(k, l, pc);
    LocalStepKeeps(k, Goto(k, pc), l, k.local[k.sched.current].(pc := pc));
  }

  lemma CallMoves(k: Kernel, l: LockId, pc: Pc)
    requires InvLocks(k) && k.sched.current in k.local && l in k.locks && k.local[k.sched.current].pc == Client
    requires pc == AcqTest(l) || pc == RelCheck(l)
    ensures var loc := k.local[k.sched.current];
            && Moved(k, Goto(k, pc), l, loc.(pc := pc)) && SameElsewhere(loc, loc.(pc := pc), l)
            && LockOk(Goto(k, pc).locks[l], l, Goto(k, pc).local) && PlaceOk(loc.(pc := pc))
  {
    assert LockOk(k.locks[l], l, k.local);
    CallLockOk(k.locks[l], l, k.sched.current, k.local, pc);
  }

  lemma CallLockOk(lock: Lock, l: LockId, cur: Task, local: map<Task, Local>, pc: Pc)
    requires cur in local && LockOk(lock, l, local) && local[cur].pc == Client && (pc == AcqTest(l) || pc == RelCheck(l))
    ensures LockOk(lock, l, local[cur := local[cur].(pc := pc)])
  {
    assert InSection(local[cur].(pc := pc), l) <==> InSection(local[cur], l);
  }

  /** Idle's own places concern no lock. */
  lemma IdlePlaceKeeps(k: Kernel, k': Kernel, pc: Pc)
    requires Inv(k) && k.sched.current == k.sched.idle && IdlePc(pc) && k.sched.current in k.local
    requires k'.locks == k.locks && k'.local == k.local[k.sched.idle := k.local[k.sched.idle].(pc := pc)]
    ensures InvLocks(k')
    ensures forall l, t :: AboutToTest(k, t, l) ==> t != k.sched.idle
  {
    var i := k.sched.idle;
    forall l | l in k'.locks
      ensures LockOk(k'.locks[l], l, k'.local)
    {
      IdleIsInNoSection(k.locks[l], l, k.local, i, pc);
    }
  }

  lemma IdleIsInNoSection(lock: Lock, l: LockId, local: map<Task, Local>, i: Task, pc: Pc)
    requires i in local && IdlePc(local[i].pc) && IdlePc(pc) && LockOk(lock, l, local)
    ensures LockOk(lock, l, local[i := local[i].(pc := pc)])
  {
    var loc' := local[i].(pc := pc);
    assert InSection(loc', l) <==> InSection(local[i], l);
  }

  lemma HaltKeeps(k: Kernel)
    requires Inv(k) && Runnable(k) && k.local[k.sched.current].pc == IdleHalt
    ensures Inv(Goto(k, IdleBlock))
  {
    var k' := Goto(k, IdleBlock);
    IdlePlaceKeeps(k, k', IdleBlock);
    IdleKeepsWaiters(k, k');
    forall l | l in k'.locks ensures WakeOk(k', l) { SameWakes(k, k', l); }
  }

  /** What happens to idle alone concerns no waiter. */
  lemma IdleKeepsWaiters(k: Kernel, k': Kernel)
    requires InvTasks(k) && InvWaiters(k) && k.sched.current == k.sched.idle
    requires k'.locks == k.locks && k'.local.Keys == k.local.Keys && IdlePc(k.local[k.sched.idle].pc)
    requires forall t :: t in k.local && t != k.sched.idle ==> k'.local[t] == k.local[t]
    requires k'.sched.tasks.Keys == k.sched.tasks.Keys && k'.sched.idle == k.sched.idle
    requires forall t :: t in k.sched.tasks && t != k.sched.idle && t != k'.sched.current ==>
               k'.sched.tasks[t] == k.sched.tasks[t]
    requires k'.sched.current in k.sched.tasks && !Sleeping(k'.sched.tasks[k'.sched.current].status)
    requires k'.sched.current != k.sched.idle ==> !Sleeping(k.sched.tasks[k'.sched.current].status)
    ensures InvWaiters(k')
  {
    forall t | t in k'.sched.tasks
      ensures SleeperWaits(k', t)
    {
      assert SleeperWaits(k, t);
    }
  }

  /** On the schedule: idle gives the processor to a ready task, or to itself. */
  predicate GaveWay(s: Sched, s': Sched)
  {
    && s.current == s.idle && s'.tasks.Keys == s.tasks.Keys && s'.idle == s.idle && s'.current in s.tasks
    && (forall t :: t in s.tasks && t != s.idle && t != s'.current ==> s'.tasks[t] == s.tasks[t])
    && s'.tasks[s'.current].status == Running
    && (s'.current != s.idle ==> s.tasks[s'.current].status == Ready)
  }

  lemma IdleGivesWay(s: Sched)
    requires Coherent(s) && s.current == s.idle
    ensures Block(s, Blocked).Ok? && GaveWay(s, Block(s, Blocked).value) && Coherent(Block(s, Blocked).value)
  {
    BlockKeeps(s, Blocked);
    if s.ready != [] { assert s.ready[0] in s.ready; }
  }

  /** cpu_idle blocks itself; if nobody is ready it is woken in the same section. */
  lemma IdleBlockEffect(k: Kernel)
    requires Runnable(k) && Coherent(k.sched) && k.sched.current == k.sched.idle && k.local[k.sched.current].pc == IdleBlock
    ensures ExecStep(k).Next? && IdleGaveWay(k, ExecStep(k).k) && Coherent(ExecStep(k).k.sched)
  {
    IdleGivesWay(k.sched);
  }

  lemma IdleBlockKeeps(k: Kernel)
    requires Inv(k) && Runnable(k) && k.local[k.sched.current].pc == IdleBlock
    ensures ExecStep(k).Next? && Inv(ExecStep(k).k)
  {
    IdleBlockEffect(k);
    IdleBlocked(k, ExecStep(k).k);
  }

  /** Idle goes to its next place and gives way. */
  predicate IdleGaveWay(k: Kernel, k': Kernel)
  {
    && k.sched.idle in k.local && IdlePc(k.local[k.sched.idle].pc) && GaveWay(k.sched, k'.sched)
    && k'.locks == k.locks && k'.local == k.local[k.sched.idle := k.local[k.sched.idle].(pc := IdleHalt)]
  }

  lemma IdleBlocked(k: Kernel, k': Kernel)
    requires Inv(k) && IdleGaveWay(k, k') && Coherent(k'.sched)
    ensures Inv(k')
  {
    IdlePlaceKeeps(k, k', IdleHalt);
    IdleKeepsWaiters(k, k');
    forall l | l in k'.locks ensures WakeOk(k', l) { IdleKeepsWakes(k, k', l); }
    IdleKeepsTasks(k, k');
  }

  lemma IdleKeepsTasks(k: Kernel, k': Kernel)
    requires InvTasks(k) && IdleGaveWay(k, k') && Coherent(k'.sched)
    ensures InvTasks(k')
  {
  }

  lemma IdleKeepsWakes(k: Kernel, k': Kernel, l: LockId)
    requires IdleGaveWay(k, k') && l in k.locks && WakeOk(k, l)
    ensures WakeOk(k', l)
  {
    SameWakes(k, k', l);
  }

  /** A task blocks in its own code. */
  lemma ClientBlockKeeps(k: Kernel, st: Status)
    requires Inv(k) && Runnable(k) && k.local[k.sched.current].pc == Client && Sleeping(st)
    ensures Block(k.sched, st).Ok? && Inv(k.(sched := Block(k.sched, st).value))
  {
    ClientBlockEffect(k, st);
    ScheduleOnly(k, Block(k.sched, st).value);
  }

  lemma ClientBlockEffect(k: Kernel, st: Status)
    requires InvTasks(k) && k.local[k.sched.current].pc == Client && Sleeping(st)
    ensures Block(k.sched, st).Ok? && Coherent(Block(k.sched, st).value) && OnlyClientsSleep(k, Block(k.sched, st).value)
  {
    BlockKeeps(k.sched, st);
    if k.sched.ready != [] { assert k.sched.ready[0] in k.sched.ready; }
  }

  /** Somebody, or an interrupt handler, wakes such a task. */
  lemma ClientWakeKeeps(k: Kernel, t: Task)
    requires Inv(k) && SleepsOutside(k, t)
    ensures Unblock(k.sched, t).Ok? && Inv(k.(sched := Unblock(k.sched, t).value))
  {
    UnblockKeeps(k.sched, t);
    ScheduleOnly(k, Unblock(k.sched, t).value);
  }

  lemma StartTaskKeeps(k: Kernel, t: Task, prio: nat)
    requires Inv(k) && Runnable(k) && t !in k.sched.tasks
    ensures var r := Start(k.sched, t, prio);
            r.Ok? && Inv(k.(local := k.local[t := Local(Client, map[])], sched := r.value))
  {
    StartKeeps(k.sched, t, prio);
    StartedKeeps(k, k.(local := k.local[t := Local(Client, map[])], sched := Start(k.sched, t, prio).value), t);
  }

  /** A new task, ready, in its own code. */
  predicate Joined(k: Kernel, k': Kernel, t: Task)
  {
    && t !in k.sched.tasks && t !in k.local && k'.locks == k.locks && k'.local == k.local[t := Local(Client, map[])]
    && k'.sched.idle == k.sched.idle && k'.sched.tasks.Keys == k.sched.tasks.Keys + {t}
    && (forall u :: u in k.sched.tasks ==> k'.sched.tasks[u] == k.sched.tasks[u]) && k'.sched.tasks[t].status == Ready
  }

  lemma StartedKeeps(k: Kernel, k': Kernel, t: Task)
    requires Inv(k) && Joined(k, k', t) && Coherent(k'.sched)
    ensures Inv(k')
  {
    JoinedKeepsTasks(k, k', t);
    JoinedKeepsWaiters(k, k', t);
    forall l | l in k'.locks
      ensures LockOk(k'.locks[l], l, k'.local) && WakeOk(k', l)
    {
      JoinedKeepsLock(k, k', t, l);
    }
  }

  lemma JoinedKeepsTasks(k: Kernel, k': Kernel, t: Task)
    requires InvTasks(k) && Joined(k, k', t) && Coherent(k'.sched)
    ensures InvTasks(k')
  {
  }

  lemma JoinedKeepsWaiters(k: Kernel, k': Kernel, t: Task)
    requires InvWaiters(k) && Joined(k, k', t)
    ensures InvWaiters(k')
  {
    forall u | u in k'.sched.tasks
      ensures SleeperWaits(k', u)
    {
      if u != t { assert SleeperWaits(k, u); }
    }
  }

  lemma JoinedKeepsLock(k: Kernel, k': Kernel, t: Task, l: LockId)
    requires Joined(k, k', t) && l in k.locks && LockOk(k.locks[l], l, k.local) && WakeOk(k, l)
    ensures LockOk(k'.locks[l], l, k'.local) && WakeOk(k', l)
  {
    SameWakes(k, k', l);
  }

  // ---------------------------------------------------------------------------
  // Every step, every run
  // ---------------------------------------------------------------------------

  /**
    Every event keeps the invariant. No assertion of the scheduler, of sema_down, of sema_up or of
    lock_acquire ever fails; the one on line 117 fails exactly for a release without an acquire.
   */
  lemma StepKeeps(k: Kernel, e: Event)
    requires Inv(k)
    ensures Runnable(k)
    ensures Step(k, e).Next? ==> Inv(Step(k, e).k)
    ensures var loc := k.local[k.sched.current];
            && (Step(k, e).Fails? ==> Step(k, e).line == 117)
            && (Step(k, e).Fails? <==> e == Exec && loc.pc.RelCheck? && Acquired(loc, loc.pc.l) == 0)
  {
    InvIsRunnable(k);
    match e
    case ClockTick => TickKeeps(k.sched); ScheduleOnly(k, Tick(k.sched).value);
    case Exec => ExecKeeps(k);
    case CallAcquire(l) => if Step(k, e).Next? { CallKeeps(k, l, AcqTest(l)); }
    case CallRelease(l) => if Step(k, e).Next? { CallKeeps(k, l, RelCheck(l)); }
    case CallYield => YieldKeeps(k.sched); ScheduleOnly(k, Yield(k.sched).value);
    case CallStart(t, prio) => if t !in k.sched.tasks { StartTaskKeeps(k, t, prio); }
    case CallBlock(st) => if Step(k, e) != Impossible { ClientBlockKeeps(k, st); }
    case WakeUp(t) => if SleepsOutside(k, t) { ClientWakeKeeps(k, t); }
  }

  /** Where the statement is neither idle's nor a semaphore call. */
  lemma ExecIsStatement(k: Kernel, l: LockId)
    requires Runnable(k) && AtStatement(k.local[k.sched.current], l)
    ensures l in k.locks && ExecStep(k) == Statement(k, l)
  {
  }

  lemma ExecKeeps(k: Kernel)
    requires Inv(k) && Runnable(k)
    ensures ExecStep(k).Next? ==> Inv(ExecStep(k).k)
    ensures var loc := k.local[k.sched.current];
            && (ExecStep(k).Fails? ==> ExecStep(k).line == 117)
            && (ExecStep(k).Fails? <==> loc.pc.RelCheck? && Acquired(loc, loc.pc.l) == 0)
  {
    var pc := k.local[k.sched.current].pc;
    if pc.Client? {
      assert ExecStep(k).k == k;
    } else if pc.IdleBlock? {
      IdleBlockKeeps(k);
    } else if pc.IdleHalt? {
      HaltKeeps(k);
    } else if pc.Down? {
      DownKeeps(k, pc.l);
    } else if pc.Up? {
      RaiseKeeps(k, pc.l);
    } else {
      ExecStatementKeeps(k, pc.l);
    }
  }

  lemma ExecStatementKeeps(k: Kernel, l: LockId)
    requires Inv(k) && Runnable(k) && AtStatement(k.local[k.sched.current], l)
    ensures ExecStep(k).Next? ==> Inv(ExecStep(k).k)
    ensures ExecStep(k).Fails? ==> ExecStep(k).line == 117
    ensures ExecStep(k).Fails? <==> k.local[k.sched.current].pc == RelCheck(l) && Acquired(k.local[k.sched.current], l) == 0
  {
    ExecIsStatement(k, l);
    StatementKeeps(k, l);
  }

  lemma DownKeeps(k: Kernel, l: LockId)
    requires Inv(k) && Runnable(k) && l in k.locks && k.local[k.sched.current].pc == Down(l)
    ensures DownStep(k, l).Next? && Inv(DownStep(k, l).k)
  {
    if k.locks[l].value == 0 { WaitKeeps(k, l); } else { TakeKeeps(k, l); }
  }

  lemma NextKeeps(k: Kernel, e: Event, k': Kernel)
    requires Inv(k) && Runnable(k) && Step(k, e) == Next(k')
    ensures Inv(k')
  {
    StepKeeps(k, e);
  }

  /** lock_init */
  const FREE: Lock := Lock(None, 0, 1, [], None, {})

  /** After boot: main runs, idle is ready to block itself for the first time, all locks are free. */
  function Boot(main: Task, idle: Task, locks: set<LockId>, prio: nat): Kernel
  {
    Kernel(
      Sched(map[main := Tcb(Running, prio % 256, prio % 0x1_0000), idle := Tcb(Ready, 1, 1)], [idle], main, idle),
      map l | l in locks :: FREE,
      map[main := Local(Client, map[]), idle := Local(IdleBlock, map[])])
  }

  /** A finite run: every state follows from the one before by some event. */
  ghost predicate Behaviour(tr: seq<Kernel>, es: seq<Event>)
  {
    && |tr| == |es| + 1
    && (exists main, idle, locks, prio :: main != idle && tr[0] == Boot(main, idle, locks, prio))
    && forall i :: 0 <= i < |es| ==> Runnable(tr[i]) && Step(tr[i], es[i]) == Next(tr[i + 1])
  }

  lemma {:induction false} BehavioursKeep(tr: seq<Kernel>, es: seq<Event>, i: nat)
    requires Behaviour(tr, es) && i < |tr|
    ensures Inv(tr[i])
    decreases i
  {
    if i == 0 {
      BehaviourStarts(tr, es);
    } else {
      BehavioursKeep(tr, es, i - 1);
      NextKeeps(tr[i - 1], es[i - 1], tr[i]);
    }
  }

  lemma BehaviourStarts(tr: seq<Kernel>, es: seq<Event>)
    requires Behaviour(tr, es)
    ensures Inv(tr[0])
  {
    var main, idle, locks, prio :| main != idle && tr[0] == Boot(main, idle, locks, prio);
    BootIsGood(main, idle, locks, prio);
  }

  lemma BootIsGood(main: Task, idle: Task, locks: set<LockId>, prio: nat)
    requires main != idle
    ensures Inv(Boot(main, idle, locks, prio)) && Fresh(Boot(main, idle, locks, prio).sched)
  {
    var k := Boot(main, idle, locks, prio);
    BootIsCoherent(main, idle, locks, prio);
    forall t | t in k.sched.tasks ensures SleeperWaits(k, t) {}
    forall l | l in k.locks ensures LockOk(k.locks[l], l, k.local) && WakeOk(k, l) {}
  }

  lemma BootIsCoherent(main: Task, idle: Task, locks: set<LockId>, prio: nat)
    requires main != idle
    ensures InvTasks(Boot(main, idle, locks, prio))
  {
    var k := Boot(main, idle, locks, prio);
    assert k.sched.ready == [idle];
  }

  function Inside(k: Kernel, l: LockId): set<Task>
  {
    set t | t in k.local && InSection(k.local[t], l)
  }

  /** The acquires of the holder, outside the two places where ownership is handed over. */
  predicate CountMatches(k: Kernel, l: LockId)
    requires l in k.locks
  {
    match k.locks[l].holder
    case None => true
    case Some(t) =>
      && t in k.local
      && (k.local[t].pc != AcqCheck(l) && k.local[t].pc != AcqCount(l) ==> k.locks[l].repeat == Acquired(k.local[t], l) > 0)
  }

  /** Nothing but line 117, for a task that releases what it has not acquired, ever fails, whatever comes next. */
  lemma NoAssertionFails(tr: seq<Kernel>, es: seq<Event>, i: nat, e: Event)
    requires Behaviour(tr, es) && i < |tr|
    ensures Runnable(tr[i])
    ensures Step(tr[i], e).Fails? ==> Step(tr[i], e).line == 117
    ensures var loc := tr[i].local[tr[i].sched.current];
            Step(tr[i], e).Fails? <==> e == Exec && loc.pc.RelCheck? && Acquired(loc, loc.pc.l) == 0
  {
    BehavioursKeep(tr, es, i);
    StepKeeps(tr[i], e);
  }

  /** Token conservation for every lock, in every state of every run, whatever the interleaving. */
  lemma TokenConserved(tr: seq<Kernel>, es: seq<Event>, i: nat, l: LockId)
    requires Behaviour(tr, es) && i < |tr| && l in tr[i].locks
    ensures tr[i].locks[l].value + |Inside(tr[i], l)| == 1
    ensures CountMatches(tr[i], l)
    ensures Coherent(tr[i].sched)
  {
    BehavioursKeep(tr, es, i);
    var k := tr[i];
    assert LockOk(k.locks[l], l, k.local);
    match k.locks[l].owner
    case None => assert Inside(k, l) == {};
    case Some(t) => assert Inside(k, l) == {t};
  }

  /** No lost wake-up, in every state of every run: the witness has been taken from this queue and not tested since. */
  lemma NoLostWakeup(tr: seq<Kernel>, es: seq<Event>, i: nat, l: LockId)
    requires Behaviour(tr, es) && i < |tr| && l in tr[i].locks
    requires tr[i].locks[l].value == 1 && tr[i].locks[l].waiters != []
    ensures exists t :: t in tr[i].locks[l].woken && AboutToTest(tr[i], t, l) && t !in tr[i].locks[l].waiters
  {
    BehavioursKeep(tr, es, i);
    var k := tr[i];
    assert WakeOk(k, l);
    var t :| t in k.locks[l].woken && AboutToTest(k, t, l);
    assert t !in k.locks[l].waiters;
  }

  /** Where the dispatch node of a task may be: nowhere else than in the waiter queue of l. */
  predicate OnlyWaitsFor(k: Kernel, l: LockId, t: Task)
  {
    && t !in k.sched.ready && t != k.sched.current && t in k.sched.tasks && k.sched.tasks[t].status == Blocked
    && forall m :: m in k.locks && t in k.locks[m].waiters ==> m == l
  }

  /** A dispatch node is in one queue at most, once: the ready queue, or the waiters of one lock. */
  lemma OneQueueEach(tr: seq<Kernel>, es: seq<Event>, i: nat)
    requires Behaviour(tr, es) && i < |tr|
    ensures forall l, t :: l in tr[i].locks && t in tr[i].locks[l].waiters ==> OnlyWaitsFor(tr[i], l, t)
    ensures Distinct(tr[i].sched.ready) && forall l :: l in tr[i].locks ==> Distinct(tr[i].locks[l].waiters)
  {
    BehavioursKeep(tr, es, i);
    WaitersAreNowhereElse(tr[i]);
  }

  lemma WaitersAreNowhereElse(k: Kernel)
    requires InvTasks(k) && WaitersBlocked(k)
    ensures forall l, t :: l in k.locks && t in k.locks[l].waiters ==> OnlyWaitsFor(k, l, t)
  {
  }

  // ---------------------------------------------------------------------------
  // First in, first out
  // ---------------------------------------------------------------------------

  /** The current task is about to call sema_up, and does. */
  predicate Raises(k: Kernel, e: Event, l: LockId)
    requires Runnable(k)
  {
    e == Exec && k.local[k.sched.current].pc == Up(l)
  }

  /** The current task tests the value of l and finds it 0. */
  predicate TestsInVain(k: Kernel, e: Event, l: LockId)
    requires Runnable(k) && l in k.locks
  {
    e == Exec && k.local[k.sched.current].pc == Down(l) && k.locks[l].value == 0
  }

  /** What one event does to a queue: its first leaves, the current task becomes its last, or nothing. */
  predicate QueueMoves(k: Kernel, e: Event, k': Kernel, l: LockId)
    requires Runnable(k) && l in k.locks
  {
    var w := k.locks[l].waiters;
    && l in k'.locks
    && k'.locks[l].waiters ==
         if Raises(k, e, l) && w != [] then w[1..] else if TestsInVain(k, e, l) then w + [k.sched.current] else w
  }

  lemma QueueStep(k: Kernel, e: Event, k': Kernel, l: LockId)
    requires Runnable(k) && Step(k, e) == Next(k') && l in k.locks
    ensures QueueMoves(k, e, k', l)
  {
    var pc := k.local[k.sched.current].pc;
    if e == Exec && pc.Down? {
      DownMovesQueue(k, pc.l, k', l);
    } else if e == Exec && pc.Up? {
      UpMovesQueue(k, pc.l, k', l);
    } else if e == Exec && !IdlePc(pc) && !pc.Client? {
      StatementMovesNoQueue(k, pc.l, k', l);
    } else {
      OtherwiseNoQueueMoves(k, e, k');
    }
  }

  lemma DownMovesQueue(k: Kernel, m: LockId, k': Kernel, l: LockId)
    requires Runnable(k) && k.local[k.sched.current].pc == Down(m) && m in k.locks && l in k.locks
    requires DownStep(k, m) == Next(k')
    ensures QueueMoves(k, Exec, k', l)
  {
  }

  lemma UpMovesQueue(k: Kernel, m: LockId, k': Kernel, l: LockId)
    requires Runnable(k) && k.local[k.sched.current].pc == Up(m) && m in k.locks && l in k.locks
    requires UpStep(k, m) == Next(k')
    ensures QueueMoves(k, Exec, k', l)
  {
  }

  lemma StatementMovesNoQueue(k: Kernel, m: LockId, k': Kernel, l: LockId)
    requires Runnable(k) && AtStatement(k.local[k.sched.current], m) && l in k.locks && Step(k, Exec) == Next(k')
    ensures QueueMoves(k, Exec, k', l)
  {
    ExecIsStatement(k, m);
    EffectKeepsWaiters(k.locks[m], k.sched.current, k.local[k.sched.current], m);
  }

  lemma EffectKeepsWaiters(lock: Lock, cur: Task, loc: Local, l: LockId)
    ensures EffectOf(lock, cur, loc, l).lock.waiters == lock.waiters
  {
  }

  lemma OtherwiseNoQueueMoves(k: Kernel, e: Event, k': Kernel)
    requires Runnable(k) && Step(k, e) == Next(k')
    requires e == Exec ==> IdlePc(k.local[k.sched.current].pc) || k.local[k.sched.current].pc.Client?
    ensures k'.locks == k.locks
  {
  }

  /** The one who leaves is the first, is ready now, and will be next to run. */
  lemma RaiseWakesFirst(k: Kernel, k': Kernel, l: LockId)
    requires Inv(k) && Runnable(k) && Step(k, Exec) == Next(k') && Raises(k, Exec, l) && l in k.locks
    requires k.locks[l].waiters != []
    ensures WokeNext(k, k', l, k.locks[l].waiters[0])
  {
    var w := k.locks[l].waiters;
    FirstWaiter(k, l);
    HeadAndTail(w);
    RaisedIs(k, k', l);
    WokenUp(k.sched, w[0], k'.sched);
  }

  lemma FirstWaiter(k: Kernel, l: LockId)
    requires Inv(k) && l in k.locks && k.locks[l].waiters != []
    ensures var t := k.locks[l].waiters[0];
            && t != k.sched.current && t in k.local && k.local[t].pc == Down(l)
            && t in k.sched.tasks && Sleeping(k.sched.tasks[t].status) && Distinct(k.locks[l].waiters)
  {
    assert k.locks[l].waiters[0] in k.locks[l].waiters;
  }

  lemma WokenUp(s: Sched, t: Task, s': Sched)
    requires Coherent(s) && t in s.tasks && Sleeping(s.tasks[t].status) && Unblock(s, t) == Ok(s')
    ensures s'.ready == [t] + s.ready && t in s'.tasks && s'.tasks[t].status == Ready
  {
    UnblockKeeps(s, t);
  }

  /** Task t, out of the queue of l, is ready, the next to run, and about to test the value. */
  predicate WokeNext(k: Kernel, k': Kernel, l: LockId, t: Task)
  {
    l in k'.locks && t !in k'.locks[l].waiters && AboutToTest(k', t, l) && k'.sched.ready == [t] + k.sched.ready
  }

  lemma RaisedIs(k: Kernel, k': Kernel, l: LockId)
    requires Runnable(k) && Step(k, Exec) == Next(k') && Raises(k, Exec, l) && l in k.locks && k.locks[l].waiters != []
    ensures l in k'.locks && k'.locks[l].waiters == k.locks[l].waiters[1..]
    ensures Unblock(k.sched, k.locks[l].waiters[0]) == Ok(k'.sched)
    ensures forall t :: t in k.local && t != k.sched.current ==> t in k'.local && k'.local[t] == k.local[t]
  {
  }

  /** Which steps of a run are calls of sema_up on l. */
  function UpCalls(tr: seq<Kernel>, es: seq<Event>, l: LockId): (ups: seq<bool>)
    requires |tr| == |es| + 1 && forall n :: 0 <= n < |es| ==> Runnable(tr[n])
    ensures |ups| == |es| && forall n :: 0 <= n < |es| ==> (ups[n] <==> Raises(tr[n], es[n], l))
  {
    seq(|es|, n requires 0 <= n < |es| && Runnable(tr[n]) => Raises(tr[n], es[n], l))
  }

  function Count(ups: seq<bool>, i: nat, j: nat): nat
    requires i <= j <= |ups|
  {
    if i == j then 0 else Count(ups, i, j - 1) + if ups[j - 1] then 1 else 0
  }

  /** How often sema_up on l is called between two states of a run. */
  function Ups(tr: seq<Kernel>, es: seq<Event>, l: LockId, i: nat, j: nat): nat
    requires |tr| == |es| + 1 && i <= j < |tr| && forall n :: 0 <= n < |es| ==> Runnable(tr[n])
  {
    Count(UpCalls(tr, es, l), i, j)
  }

  /** A queue whose first leaves with every call, and which otherwise grows at the end. */
  predicate InOrder(qs: seq<seq<Task>>, ups: seq<bool>)
  {
    |qs| == |ups| + 1 &&
    forall n :: 0 <= n < |ups| ==> if ups[n] && qs[n] != [] then qs[n + 1] == qs[n][1..] else qs[n] <= qs[n + 1]
  }

  /** As long as there were at most |qs[i]| calls, those who waited are first, in the order they had. */
  lemma {:induction false} StillInOrder(qs: seq<seq<Task>>, ups: seq<bool>, i: nat, j: nat)
    requires InOrder(qs, ups) && i <= j < |qs| && Count(ups, i, j) <= |qs[i]|
    ensures qs[i][Count(ups, i, j)..] <= qs[j]
    decreases j
  {
    if i < j {
      StillInOrder(qs, ups, i, j - 1);
      var n := Count(ups, i, j - 1);
      assert ups[j - 1] ==> qs[i][n..] != [] && qs[i][n..][1..] == qs[i][n + 1..];
    }
  }

  function Queues(tr: seq<Kernel>, l: LockId): (qs: seq<seq<Task>>)
    ensures |qs| == |tr|
    ensures forall n :: 0 <= n < |tr| ==> qs[n] == if l in tr[n].locks then tr[n].locks[l].waiters else []
  {
    seq(|tr|, n requires 0 <= n < |tr| => if l in tr[n].locks then tr[n].locks[l].waiters else [])
  }

  lemma QueuesInOrder(tr: seq<Kernel>, es: seq<Event>, l: LockId)
    requires Behaviour(tr, es)
    ensures InOrder(Queues(tr, l), UpCalls(tr, es, l))
  {
    var qs, ups := Queues(tr, l), UpCalls(tr, es, l);
    forall n | 0 <= n < |es|
      ensures if ups[n] && qs[n] != [] then qs[n + 1] == qs[n][1..] else qs[n] <= qs[n + 1]
    {
      if l in tr[n].locks { QueueStep(tr[n], es[n], tr[n + 1], l); }
    }
  }

  lemma {:induction false} LocksStay(tr: seq<Kernel>, es: seq<Event>, l: LockId, i: nat, j: nat)
    requires Behaviour(tr, es) && i <= j < |tr| && l in tr[i].locks
    ensures l in tr[j].locks
    decreases j
  {
    if i < j {
      LocksStay(tr, es, l, i, j - 1);
      QueueStep(tr[j - 1], es[j - 1], tr[j], l);
    }
  }

  lemma InItsPlace(tr: seq<Kernel>, es: seq<Event>, l: LockId, i: nat, j: nat, k: nat)
    requires Behaviour(tr, es) && i <= j < |tr| && l in tr[i].locks && k < |tr[i].locks[l].waiters|
    requires Ups(tr, es, l, i, j) <= k
    ensures l in tr[j].locks
    ensures var n, w := Ups(tr, es, l, i, j), tr[j].locks[l].waiters;
            k - n < |w| && w[k - n] == tr[i].locks[l].waiters[k]
  {
    LocksStay(tr, es, l, i, j);
    QueuesInOrder(tr, es, l);
    StillInOrder(Queues(tr, l), UpCalls(tr, es, l), i, j);
  }

  /**
    First in, first out: in every run, whoever is at place k of the queue of l is at place k - n after n calls of
    sema_up, and exactly the (k+1)-st wakes it.
   */
  lemma ServedInTurn(tr: seq<Kernel>, es: seq<Event>, l: LockId, i: nat, j: nat, k: nat)
    requires Behaviour(tr, es) && i <= j < |tr| && l in tr[i].locks && k < |tr[i].locks[l].waiters|
    requires Ups(tr, es, l, i, j) <= k
    ensures l in tr[j].locks
    ensures var n, w := Ups(tr, es, l, i, j), tr[j].locks[l].waiters;
            && k - n < |w| && w[k - n] == tr[i].locks[l].waiters[k]
            && (j < |es| && n == k && Raises(tr[j], es[j], l) ==>
                  WokeNext(tr[j], tr[j + 1], l, tr[i].locks[l].waiters[k]))
  {
    InItsPlace(tr, es, l, i, j, k);
    if j < |es| && Ups(tr, es, l, i, j) == k && Raises(tr[j], es[j], l) {
      BehavioursKeep(tr, es, j);
      RaiseWakesFirst(tr[j], tr[j + 1], l);
    }
  }

  /** Nobody is overtaken: if u, behind t in the queue, is out of it at some time, t was out of it before. */
  lemma NobodyOvertakes(tr: seq<Kernel>, es: seq<Event>, l: LockId, i: nat, m: nat, a: nat, b: nat) returns (j: nat)
    requires Behaviour(tr, es) && i <= m < |tr| && l in tr[i].locks && a < b < |tr[i].locks[l].waiters|
    requires l in tr[m].locks ==> tr[i].locks[l].waiters[b] !in tr[m].locks[l].waiters
    ensures i < j < m && l in tr[j].locks && tr[i].locks[l].waiters[a] !in tr[j].locks[l].waiters
  {
    if Ups(tr, es, l, i, m) <= b {
      ServedInTurn(tr, es, l, i, m, b);
      assert false;
    }
    j := NthUp(UpCalls(tr, es, l), i, m, a);
    ServedInTurn(tr, es, l, i, j, a);
    j := j + 1;
  }

  /** The step that is the (n+1)-st call, when it is not the last. */
  lemma {:induction false} NthUp(ups: seq<bool>, i: nat, m: nat, n: nat) returns (j: nat)
    requires i <= m <= |ups| && n + 1 < Count(ups, i, m)
    ensures i <= j < m - 1 && Count(ups, i, j) == n && ups[j]
    decreases m
  {
    if Count(ups, i, m - 1) > n + 1 {
      j := NthUp(ups, i, m - 1, n);
    } else {
      j := LastUp(ups, i, m - 1, n);
    }
  }

  lemma {:induction false} LastUp(ups: seq<bool>, i: nat, m: nat, n: nat) returns (j: nat)
    requires i <= m <= |ups| && n + 1 == Count(ups, i, m)
    ensures i <= j < m && Count(ups, i, j) == n && ups[j]
    decreases m
  {
    if ups[m - 1] { j := m - 1; } else { j := LastUp(ups, i, m - 1, n); }
  }
}
