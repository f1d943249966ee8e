/**
  thread/thread.c, clock_service of device/timer.c and the interrupts-off sections of thread/sync.c as
  they are written: globals and fields assigned one after the other, and queues that are rings of the
  dispatch nodes inside the PCBs, of which every task has one. A method that trips an ASSERT returns false
  there and then, which stands for the machine hanging. Each method is proved equal to the function of
  Scheduler or Sync that the proofs about whole runs are made of.
 */
module Thread {
  import opened Machine
  import opened List
  import opened Scheduler
  import Sync

  /** The tasks whose nodes these are. */
  function Entries(s: seq<Node>): (r: seq<Task>)
    ensures |r| == |s| && forall i :: 0 <= i < |s| ==> r[i] == s[i].entry
  {
    seq(|s|, i requires 0 <= i < |s| => s[i].entry)
  }

  /** `nodes` gives every task its own node, and the nodes of `s` are among them. */
  predicate NodesOf(s: seq<Node>, nodes: map<Task, Node>)
  {
    && (forall t :: t in nodes ==> nodes[t].entry == t)
    && forall i :: 0 <= i < |s| ==> s[i].entry in nodes && nodes[s[i].entry] == s[i]
  }

  lemma NodeIsIn(s: seq<Node>, nodes: map<Task, Node>, t: Task)
    requires NodesOf(s, nodes) && t in nodes
    ensures nodes[t] in s <==> t in Entries(s)
    ensures forall k: nat :: k <= |s| ==> (nodes[t] in s[..k] <==> t in Entries(s)[..k])
  {
    if t in Entries(s) {
      var i :| 0 <= i < |s| && Entries(s)[i] == t;
      assert s[i] == nodes[t];
    }
    forall k: nat | k <= |s|
      ensures nodes[t] in s[..k] <==> t in Entries(s)[..k]
    {
      if t in Entries(s)[..k] {
        var i :| 0 <= i < k && Entries(s)[i] == t;
        assert s[..k][i] == nodes[t];
      }
      if nodes[t] in s[..k] {
        var i :| 0 <= i < k && s[i] == nodes[t];
        assert Entries(s)[..k][i] == t;
      }
    }
  }

  /** thread_ready_queue, current_task, idle_thread and the PCBs with their dispatch nodes. */
  class Processor {
    var tasks: map<Task, Tcb>
    var nodes: map<Task, Node>
    const readyQueue: Queue
    var current: Task
    var idle: Task

    ghost function Queued(): seq<Task>
      reads readyQueue
    {
      Entries(readyQueue.items)
    }

    ghost function State(): Sched
      reads this, readyQueue
    {
      Sched(tasks, Queued(), current, idle)
    }

    ghost predicate Valid()
      reads this, readyQueue, readyQueue.items
    {
      && readyQueue.Valid() && NodesOf(readyQueue.items, nodes)
      && tasks.Keys == nodes.Keys && current in tasks && idle in tasks
    }

    constructor (main: Task, idle_thread: Task, prio: nat)
      requires main != idle_thread
      ensures Valid() && fresh(readyQueue) && fresh(readyQueue.items)
      ensures State() == Sync.Boot(main, idle_thread, {}, prio).sched
    {
      var mainNode := new Node(main);
      var idleNode := new Node(idle_thread);
      var q := new Queue();
      q.In(idleNode);
      tasks := map[main := Tcb(Running, prio % 256, prio % 0x1_0000), idle_thread := Tcb(Ready, 1, 1)];
      nodes := map[main := mainNode, idle_thread := idleNode];
      readyQueue := q;
      current := main;
      idle := idle_thread;
      new;
      assert readyQueue.items == [idleNode] && Queued() == [idle_thread];
    }

    // The ready queue

    /** list_find_item on the ready queue */
    method FindReady(t: Task) returns (found: bool)
      requires Valid() && t in tasks
      ensures found <==> FindItem(Queued(), t)
    {
      NodeIsIn(readyQueue.items, nodes, t);
      found := ListFindItem(readyQueue.front, nodes[t], readyQueue.items);
    }

    /** queue_in; the node is in no ring yet, as far as this one goes. */
    method AppendReady(t: Task)
      requires Valid() && t in tasks && t !in Queued()
      modifies readyQueue, readyQueue.items, nodes[t]
      ensures Valid() && Queued() == old(Queued()) + [t]
    {
      NodeIsIn(readyQueue.items, nodes, t);
      readyQueue.In(nodes[t]);
    }

    /** queue_push */
    method PushReady(t: Task)
      requires Valid() && t in tasks && t !in Queued()
      modifies readyQueue, readyQueue.items, nodes[t]
      ensures Valid() && Queued() == [t] + old(Queued())
    {
      NodeIsIn(readyQueue.items, nodes, t);
      readyQueue.Push(nodes[t]);
    }

    /** queue_out and list_entry */
    method PopReady() returns (t: Task)
      requires Valid() && Queued() != []
      modifies readyQueue, readyQueue.items
      ensures Valid() && t in tasks && old(Queued()) == [t] + Queued()
    {
      var node := readyQueue.Out();
      t := node.entry;
    }

    // The functions of thread.c

    /** `task->status = status` */
    method SetStatusOf(t: Task, st: Status)
      requires t in tasks
      modifies this`tasks
      ensures tasks == old(tasks)[t := old(tasks)[t].(status := st)]
    {
      tasks := tasks[t := tasks[t].(status := st)];
    }

    method ThreadUnblock(t: Task) returns (ok: bool)
      requires Valid() && t in tasks && (Sleeping(tasks[t].status) ==> t !in Queued())
      modifies this`tasks, readyQueue, readyQueue.items, nodes[t]
      ensures ok <==> Unblock(old(State()), t).Ok?
      ensures ok ==> Valid() && State() == Unblock(old(State()), t).value
    {
      if !Sleeping(tasks[t].status) { return false; }
      var found := FindReady(t);
      if found { return false; }
      PushReady(t);
      SetStatusOf(t, Ready);
      return true;
    }

    /** The first half of schedule: a task whose slice is over goes to the back of the queue. */
    method RequeueCurrent() returns (ok: bool)
      requires Valid() && (tasks[current].status == Running ==> current !in Queued())
      modifies this`tasks, readyQueue, readyQueue.items, if tasks[current].status == Running then {nodes[current]} else {}
      ensures ok <==> Requeue(old(State())).Ok?
      ensures ok ==> Valid() && State() == Requeue(old(State())).value
    {
      if tasks[current].status == Running {
        var found := FindReady(current);
        if found { return false; }
        AppendReady(current);
        tasks := tasks[current := tasks[current].(ticks := tasks[current].priority % 256)];
        SetStatusOf(current, Ready);
      }
      return true;
    }

    /** Nobody is ready: idle is. */
    method WakeIdle() returns (ok: bool)
      requires Valid()
      modifies this`tasks, readyQueue, readyQueue.items, nodes[idle]
      ensures var s := old(State());
              var r := if s.ready == [] then Unblock(s, s.idle) else Ok(s);
              (ok <==> r.Ok?) && (ok ==> Valid() && State() == r.value)
    {
      ok := true;
      var empty := readyQueue.Empty();
      if empty {
        ok := ThreadUnblock(idle);
      }
    }

    /** The second half: idle is woken if nobody is ready, and the first in the queue runs. */
    method DispatchNext() returns (ok: bool)
      requires Valid()
      modifies this`tasks, this`current, readyQueue, readyQueue.items, nodes[idle]
      ensures ok <==> Dispatch(old(State())).Ok?
      ensures ok ==> Valid() && State() == Dispatch(old(State())).value
    {
      ok := WakeIdle();
      if ok { ok := RunFirst(); }
    }

    method RunFirst() returns (ok: bool)
      requires Valid()
      modifies this`tasks, this`current, readyQueue, readyQueue.items
      ensures ok <==> old(Queued()) != []
      ensures ok ==> Valid() && old(Queued())[0] in old(tasks)
      ensures ok ==> var next := old(Queued())[0];
                     State() == SetStatus(old(State()).(ready := old(Queued())[1..], current := next), next, Running)
    {
      var empty := readyQueue.Empty();
      if empty { return false; }
      var next := PopReady();
      SetStatusOf(next, Running);
      current := next;
      return true;
    }

    method ScheduleNext() returns (ok: bool)
      requires Valid() && (tasks[current].status == Running ==> current !in Queued())
      modifies this`tasks, this`current, readyQueue, readyQueue.items, nodes[idle]
      modifies if tasks[current].status == Running then {nodes[current]} else {}
      ensures ok <==> Schedule(old(State())).Ok?
      ensures ok ==> Valid() && State() == Schedule(old(State())).value
    {
      ok := RequeueCurrent();
      if ok { ok := DispatchNext(); }
    }

    method ThreadBlock(st: Status) returns (ok: bool)
      requires Valid()
      modifies this`tasks, this`current, readyQueue, readyQueue.items, nodes[idle]
      ensures ok <==> Block(old(State()), st).Ok?
      ensures ok ==> Valid() && State() == Block(old(State()), st).value
    {
      if !Sleeping(st) { return false; }
      SetStatusOf(current, st);
      ok := ScheduleNext();
    }

    method ThreadYield() returns (ok: bool)
      requires Valid() && current !in Queued()
      modifies this`tasks, this`current, readyQueue, readyQueue.items, nodes[idle], nodes[current]
      ensures ok <==> Yield(old(State())).Ok?
      ensures ok ==> Valid() && State() == Yield(old(State())).value
    {
      var found := FindReady(current);
      if found { return false; }
      AppendReady(current);
      SetStatusOf(current, Ready);
      ok := ScheduleNext();
    }

    /** thread_start: a new PCB, with a node of its own */
    method ThreadStart(t: Task, prio: nat) returns (ok: bool)
      requires Valid() && t !in tasks
      modifies this`tasks, this`nodes, readyQueue, readyQueue.items
      ensures ok <==> Start(old(State()), t, prio).Ok?
      ensures ok ==> Valid() && State() == Start(old(State()), t, prio).value
      ensures t in nodes && fresh(nodes[t]) && nodes[t].entry == t && nodes == old(nodes)[t := nodes[t]]
    {
      var node := new Node(t);
      tasks := tasks[t := Tcb(Ready, prio % 256, prio % 0x1_0000)];
      nodes := nodes[t := node];
      var found := FindReady(t);
      if found { return false; }
      AppendReady(t);
      return true;
    }

    method ClockService() returns (ok: bool)
      requires Valid() && (tasks[current].status == Running ==> current !in Queued())
      modifies this`tasks, this`current, readyQueue, readyQueue.items, nodes[idle]
      modifies if tasks[current].status == Running then {nodes[current]} else {}
      ensures ok <==> Tick(old(State())).Ok?
      ensures ok ==> Valid() && State() == Tick(old(State())).value
    {
      var cur := current;
      if tasks[cur].ticks == 0 {
        ok := ScheduleNext();
      } else {
        tasks := tasks[cur := tasks[cur].(ticks := tasks[cur].ticks - 1)];
        ok := true;
      }
    }
  }

  /** What can happen to the schedule alone. */
  datatype Happening = Ticks | Yields | Blocks(st: Status) | Wakes(t: Task)

  function Serving(s: Sched, e: Happening): Result<Sched>
    requires s.current in s.tasks && s.idle in s.tasks && (forall t :: t in s.ready ==> t in s.tasks)
    requires e.Wakes? ==> e.t in s.tasks
  {
    match e
    case Ticks => Tick(s)
    case Yields => Yield(s)
    case Blocks(st) => Block(s, st)
    case Wakes(t) => Unblock(s, t)
  }

  /** The node that the call links is in no ring yet. */
  ghost predicate Linkable(cpu: Processor, e: Happening)
    reads cpu, cpu.readyQueue
  {
    && cpu.current in cpu.tasks && cpu.current !in cpu.Queued()
    && (e.Wakes? ==> e.t in cpu.tasks && (Sleeping(cpu.tasks[e.t].status) ==> e.t !in cpu.Queued()))
  }

  /** The call that does it. */
  method Serve(cpu: Processor, e: Happening, ghost r: Result<Sched>) returns (ok: bool)
    requires cpu.Valid() && Linkable(cpu, e) && r == Serving(cpu.State(), e)
    modifies cpu`tasks, cpu`current, cpu.readyQueue, cpu.readyQueue.items, cpu.nodes[cpu.current], cpu.nodes[cpu.idle]
    modifies if e.Wakes? then {cpu.nodes[e.t]} else {}
    ensures (ok <==> r.Ok?) && (ok ==> cpu.Valid() && cpu.State() == r.value)
  {
    match e {
      case Ticks => ok := cpu.ClockService();
      case Yields => ok := cpu.ThreadYield();
      case Blocks(st) => ok := cpu.ThreadBlock(st);
      case Wakes(t) => ok := cpu.ThreadUnblock(t);
    }
  }

  lemma StandApart(cpu: Processor, e: Happening, o: KernelLock)
    requires cpu.Valid() && (e.Wakes? ==> e.t in cpu.tasks) && o.Valid(cpu.nodes) && o.waiterQueue != cpu.readyQueue
    requires Bystanders(cpu.State(), e, Entries(o.waiterQueue.items))
    ensures ApartFromAll(cpu, e, o.waiterQueue)
  {
    UnmixedByTask(o.waiterQueue, cpu.readyQueue, cpu.nodes, cpu.current);
    UnmixedByTask(o.waiterQueue, cpu.readyQueue, cpu.nodes, cpu.idle);
    if e.Wakes? { UnmixedByTask(o.waiterQueue, cpu.readyQueue, cpu.nodes, e.t); }
  }

  /** Besides locks none of whose waiters it concerns. */
  method ServeBeside(cpu: Processor, e: Happening, ghost r: Result<Sched>, ghost others: set<KernelLock>) returns (ok: bool)
    requires cpu.Valid() && Coherent(cpu.State()) && (e.Wakes? ==> e.t in cpu.tasks) && r == Serving(cpu.State(), e)
    requires forall o :: o in others ==> o.Valid(cpu.nodes) && o.waiterQueue != cpu.readyQueue
    requires forall o :: o in others ==> Bystanders(cpu.State(), e, Entries(o.waiterQueue.items))
    modifies cpu`tasks, cpu`current, cpu.readyQueue, cpu.readyQueue.items, cpu.nodes[cpu.current], cpu.nodes[cpu.idle]
    modifies if e.Wakes? then {cpu.nodes[e.t]} else {}
    ensures (ok <==> r.Ok?) && (ok ==> cpu.Valid() && cpu.State() == r.value)
    ensures cpu.nodes == old(cpu.nodes) && forall o :: o in others ==> o.Valid(cpu.nodes) && o.State() == old(o.State())
  {
    forall o | o in others
      ensures ApartFromAll(cpu, e, o.waiterQueue)
    {
      StandApart(cpu, e, o);
    }
    ok := ServeApart(cpu, e, r, others);
  }

  ghost predicate ApartFromAll(cpu: Processor, e: Happening, q: Queue)
    requires cpu.current in cpu.nodes && cpu.idle in cpu.nodes && (e.Wakes? ==> e.t in cpu.nodes)
    reads cpu, cpu.readyQueue, q
  {
    && Unmixed(q, cpu.readyQueue, cpu.nodes[cpu.current]) && Unmixed(q, cpu.readyQueue, cpu.nodes[cpu.idle])
    && (e.Wakes? ==> Unmixed(q, cpu.readyQueue, cpu.nodes[e.t]))
  }

  method ServeApart(cpu: Processor, e: Happening, ghost r: Result<Sched>, ghost others: set<KernelLock>) returns (ok: bool)
    requires cpu.Valid() && Linkable(cpu, e) && r == Serving(cpu.State(), e)
    requires forall o :: o in others ==> o.Valid(cpu.nodes) && ApartFromAll(cpu, e, o.waiterQueue)
    modifies cpu`tasks, cpu`current, cpu.readyQueue, cpu.readyQueue.items, cpu.nodes[cpu.current], cpu.nodes[cpu.idle]
    modifies if e.Wakes? then {cpu.nodes[e.t]} else {}
    ensures (ok <==> r.Ok?) && (ok ==> cpu.Valid() && cpu.State() == r.value)
    ensures cpu.nodes == old(cpu.nodes) && forall o :: o in others ==> o.Valid(cpu.nodes) && o.State() == old(o.State())
  {
    label Before:
    ok := Serve(cpu, e, r);
    forall o | o in others
      ensures o.waiterQueue.Valid()
    {
      Untouched@Before(o.waiterQueue);
    }
  }

  /** thread_start besides locks none of whose waiters is in the ready queue. */
  method StartBeside(cpu: Processor, t: Task, prio: nat, ghost others: set<KernelLock>) returns (ok: bool)
    requires cpu.Valid() && t !in cpu.tasks
    requires forall o :: o in others ==> o.Valid(cpu.nodes) && Unmixed(o.waiterQueue, cpu.readyQueue, null)
    modifies cpu`tasks, cpu`nodes, cpu.readyQueue, cpu.readyQueue.items
    ensures ok <==> Start(old(cpu.State()), t, prio).Ok?
    ensures ok ==> cpu.Valid() && cpu.State() == Start(old(cpu.State()), t, prio).value
    ensures forall o :: o in others ==> o.Valid(cpu.nodes) && o.State() == old(o.State())
  {
    label Before:
    ok := cpu.ThreadStart(t, prio);
    forall o | o in others
      ensures o.Valid(cpu.nodes)
    {
      Untouched@Before(o.waiterQueue);
      NodesKept(o.waiterQueue.items, old(cpu.nodes), cpu.nodes, t);
    }
  }

  lemma NodesKept(s: seq<Node>, nodes: map<Task, Node>, nodes': map<Task, Node>, t: Task)
    requires NodesOf(s, nodes) && t !in nodes && t in nodes' && nodes' == nodes[t := nodes'[t]] && nodes'[t].entry == t
    ensures NodesOf(s, nodes')
  {
  }

  /** Tasks whose nodes no such happening links or unlinks. */
  predicate Bystanders(s: Sched, e: Happening, ts: seq<Task>)
  {
    forall t :: t in ts ==> t !in s.ready && t != s.current && t != s.idle && (e.Wakes? ==> t != e.t)
  }

  /** Neither the queue nor a link of its nodes has changed. */
  twostate predicate SameQueue(q: Queue)
    reads q, q.items
  {
    && q.front == old(q.front) && q.queueLen == old(q.queueLen) && q.items == old(q.items)
    && forall n :: n in q.items ==> n.next == old(n.next) && n.prev == old(n.prev)
  }

  twostate lemma Untouched(q: Queue)
    requires old(q.Valid()) && SameQueue(q)
    ensures q.Valid()
  {
    if q.items != [] {
      forall i | 0 <= i < |q.items|
        ensures q.items[i].next == q.items[After(i, |q.items|)] && q.items[After(i, |q.items|)].prev == q.items[i]
      {
        assert q.items[i] in q.items && q.items[After(i, |q.items|)] in q.items;
      }
    }
  }

  /** Waking the first of `w`, if there is one, fails or leads to s'. */
  predicate WakesFirst(s: Sched, w: seq<Task>, ok: bool, s': Sched)
  {
    && (w != [] ==> w[0] in s.tasks)
    && (ok <==> w == [] || Unblock(s, w[0]).Ok?)
    && (ok ==> Ok(s') == if w == [] then Ok(s) else Unblock(s, w[0]))
  }

  /** The nodes of one queue are neither in the other nor the given one. */
  ghost predicate Unmixed(p: Queue, q: Queue, other: Node?)
    reads p, q
  {
    p != q && forall i :: 0 <= i < |p.items| ==> p.items[i] !in q.items && p.items[i] != other
  }

  /** Queues whose tasks are not the same have no node in common. */
  lemma UnmixedByTask(p: Queue, q: Queue, nodes: map<Task, Node>, t: Task)
    requires p != q && NodesOf(p.items, nodes) && NodesOf(q.items, nodes) && t in nodes && t !in Entries(p.items)
    requires forall u :: u in Entries(p.items) ==> u !in Entries(q.items)
    ensures Unmixed(p, q, nodes[t])
  {
    forall i | 0 <= i < |p.items|
      ensures p.items[i] !in q.items && p.items[i] != nodes[t]
    {
      assert Entries(p.items)[i] in Entries(p.items);
      NodeIsIn(q.items, nodes, p.items[i].entry);
    }
  }

  /** struct lock with its semaphore; `owner` and `woken` as in Sync. */
  class KernelLock {
    var holder: Option<Task>
    var repeat: int
    var value: nat
    const waiterQueue: Queue
    ghost var owner: Option<Task>
    ghost var woken: set<Task>

    ghost function State(): Sync.Lock
      reads this, waiterQueue
    {
      Sync.Lock(holder, repeat, value, Entries(waiterQueue.items), owner, woken)
    }

    ghost predicate Valid(nodes: map<Task, Node>)
      reads waiterQueue, waiterQueue.items
    {
      waiterQueue.Valid() && NodesOf(waiterQueue.items, nodes)
    }

    /** lock_init over sema_init */
    constructor ()
      ensures fresh(waiterQueue) && waiterQueue.Valid() && waiterQueue.items == []
      ensures State() == Sync.Lock(None, 0, 1, [], None, {})
    {
      holder, repeat, value, owner, woken := None, 0, 1, None, {};
      waiterQueue := new Queue();
    }

    /** The caller joins the waiters: queue_in */
    method Join(cpu: Processor) returns (ok: bool)
      requires cpu.Valid() && Valid(cpu.nodes) && cpu.current !in Entries(waiterQueue.items)
      modifies this`woken, waiterQueue, waiterQueue.items, cpu.nodes[cpu.current]
      ensures ok && Valid(cpu.nodes) && State() == Sync.Joins(old(State()), cpu.current)
      ensures Entries(waiterQueue.items) == old(Entries(waiterQueue.items)) + [cpu.current]
    {
      NodeIsIn(waiterQueue.items, cpu.nodes, cpu.current);
      var found := ListFindItem(waiterQueue.front, cpu.nodes[cpu.current], waiterQueue.items);
      if found { return false; }
      waiterQueue.In(cpu.nodes[cpu.current]);
      woken := woken - {cpu.current};
      return true;
    }

    /** The statement of lock_acquire or lock_release at a place that is neither semaphore call, by task `cur`. */
    method Statement(pc: Sync.Pc, cur: Task, ghost loc: Sync.Local, ghost l: Sync.LockId,
      ghost e: Sync.Effect) returns (ok: bool)
      requires loc.pc == pc && Sync.AtStatement(loc, l) && e == Sync.EffectOf(State(), cur, loc, l)
      modifies this`holder, this`repeat
      ensures ok == e.ok && State() == e.lock
    {
      ok := true;
      match pc {
        case AcqTest(_) =>
        case AcqHolder(_) => holder := Some(cur);
        case AcqCheck(_) => ok := repeat == 0;
        case AcqCount(_) => repeat := 1;
        case AcqNest(_) => repeat := repeat + 1;
        case RelCheck(_) => ok := holder == Some(cur);
        case RelTest(_) =>
        case RelNest(_) => repeat := repeat - 1;
        case RelCheckOne(_) => ok := repeat == 1;
        case RelHolder(_) => holder := None;
        case RelCount(_) => repeat := 0;
        case _ =>
      }
    }

    /** The ready queue, over other nodes, is not touched. */
    method JoinBeside(cpu: Processor) returns (ok: bool)
      requires cpu.Valid() && Valid(cpu.nodes) && waiterQueue != cpu.readyQueue
      requires forall t :: t in Entries(waiterQueue.items) ==> t !in cpu.Queued() && t != cpu.current
      requires cpu.current !in cpu.Queued()
      modifies this`woken, waiterQueue, waiterQueue.items, cpu.nodes[cpu.current]
      ensures ok && cpu.Valid() && cpu.State() == old(cpu.State()) && Valid(cpu.nodes)
      ensures State() == Sync.Joins(old(State()), cpu.current)
    {
      UnmixedByTask(cpu.readyQueue, waiterQueue, cpu.nodes, cpu.current);
      label BeforeJoin:
      ok := Join(cpu);
      Untouched@BeforeJoin(cpu.readyQueue);
    }

    /** Besides other locks, whose fields are not these. */
    method StatementBeside(pc: Sync.Pc, cur: Task, ghost lock: Sync.Lock, ghost loc: Sync.Local, ghost l: Sync.LockId,
                           ghost e: Sync.Effect, ghost others: set<KernelLock>, ghost nodes: map<Task, Node>)
      returns (ok: bool)
      requires loc.pc == pc && Sync.AtStatement(loc, l) && Valid(nodes) && lock == State()
               && e == Sync.EffectOf(lock, cur, loc, l)
      requires forall o :: o in others ==> o != this && o.Valid(nodes)
      modifies this`holder, this`repeat
      ensures ok == e.ok && State() == e.lock && Valid(nodes)
      ensures forall o :: o in others ==> o.Valid(nodes) && o.State() == old(o.State())
    {
      ok := Statement(pc, cur, loc, l, e);
    }

    /** queue_in and thread_block: the caller's node is in this ring when the processor is given away. */
    method JoinAndBlock(cpu: Processor) returns (ok: bool)
      requires cpu.Valid() && Valid(cpu.nodes) && waiterQueue != cpu.readyQueue
      requires forall t :: t in Entries(waiterQueue.items) ==> t !in cpu.Queued() && t != cpu.current && t != cpu.idle
      requires cpu.current !in cpu.Queued() && cpu.idle != cpu.current
      modifies this`woken, waiterQueue, waiterQueue.items, cpu`tasks, cpu`current, cpu.readyQueue, cpu.readyQueue.items
      modifies cpu.nodes[cpu.current], cpu.nodes[cpu.idle]
      ensures ok <==> Block(old(cpu.State()), Blocked).Ok?
      ensures ok ==> cpu.Valid() && Valid(cpu.nodes) && cpu.State() == Block(old(cpu.State()), Blocked).value
      ensures State() == Sync.Joins(old(State()), old(cpu.current))
    {
      ok := JoinBeside(cpu);
      UnmixedByTask(waiterQueue, cpu.readyQueue, cpu.nodes, cpu.idle);
      label BeforeBlock:
      ok := cpu.ThreadBlock(Blocked);
      Untouched@BeforeBlock(waiterQueue);
    }

    /**
      One pass of the loop in sema_down, up to the point where the task has lost the processor or has
      taken the value.
     */
    method SemaDownPass(cpu: Processor) returns (ok: bool, taken: bool)
      requires cpu.Valid() && Valid(cpu.nodes) && waiterQueue != cpu.readyQueue
      requires forall t :: t in State().waiters ==> t !in cpu.Queued() && t != cpu.current && t != cpu.idle
      requires cpu.current !in cpu.Queued() && cpu.idle != cpu.current
      modifies this, waiterQueue, waiterQueue.items, cpu`tasks, cpu`current, cpu.readyQueue, cpu.readyQueue.items
      modifies cpu.nodes[cpu.current], cpu.nodes[cpu.idle]
      ensures taken <==> old(value) > 0
      ensures ok ==> cpu.Valid() && Valid(cpu.nodes)
      ensures !taken ==>
                (ok <==> Block(old(cpu.State()), Blocked).Ok?) && State() == Sync.Joins(old(State()), old(cpu.current))
      ensures !taken && ok ==> Ok(cpu.State()) == Block(old(cpu.State()), Blocked)
      ensures !taken ==> State().waiters == old(State()).waiters + [old(cpu.current)]
      ensures taken ==>
                (ok <==> old(value) == 1) && State() == Sync.Takes(old(State()), cpu.current) && cpu.State() == old(cpu.State())
    {
      taken := false;
      if value == 0 {
        ok := JoinAndBlock(cpu);
      } else {
        value := value - 1;
        taken := true;
        ok := value == 0;
        owner, woken := Some(cpu.current), woken - {cpu.current};
      }
    }

    /** Besides other locks over other nodes, none of which it touches. */
    method SemaDownBeside(cpu: Processor, ghost others: set<KernelLock>) returns (ok: bool, taken: bool)
      requires cpu.Valid() && Valid(cpu.nodes) && waiterQueue != cpu.readyQueue
      requires forall t :: t in State().waiters ==> t !in cpu.Queued() && t != cpu.current && t != cpu.idle
      requires cpu.current !in cpu.Queued() && cpu.idle != cpu.current
      requires forall o :: o in others ==> o != this && o.Valid(cpu.nodes)
      requires forall o :: o in others ==> Unmixed(o.waiterQueue, waiterQueue, cpu.nodes[cpu.current])
      requires forall o :: o in others ==> Unmixed(o.waiterQueue, cpu.readyQueue, cpu.nodes[cpu.idle])
      modifies this, waiterQueue, waiterQueue.items, cpu`tasks, cpu`current, cpu.readyQueue, cpu.readyQueue.items
      modifies cpu.nodes[cpu.current], cpu.nodes[cpu.idle]
      ensures taken <==> old(value) > 0
      ensures ok ==> cpu.Valid() && Valid(cpu.nodes)
      ensures !taken ==>
                (ok <==> Block(old(cpu.State()), Blocked).Ok?) && State() == Sync.Joins(old(State()), old(cpu.current))
      ensures !taken && ok ==> Ok(cpu.State()) == Block(old(cpu.State()), Blocked)
      ensures taken ==>
                (ok <==> old(value) == 1) && State() == Sync.Takes(old(State()), cpu.current) && cpu.State() == old(cpu.State())
      ensures cpu.nodes == old(cpu.nodes) && forall o :: o in others ==> o.Valid(cpu.nodes) && o.State() == old(o.State())
    {
      label Before:
      ok, taken := SemaDownPass(cpu);
      forall o | o in others
        ensures o.waiterQueue.Valid()
      {
        Untouched@Before(o.waiterQueue);
      }
    }

    /** queue_out and list_entry: the first waiter's node is in no ring now. */
    method TakeFirst(cpu: Processor) returns (t: Task)
      requires cpu.Valid() && Valid(cpu.nodes) && waiterQueue != cpu.readyQueue && waiterQueue.items != []
      requires forall u :: u in Entries(waiterQueue.items) ==> u !in cpu.Queued()
      modifies this`woken, waiterQueue, waiterQueue.items
      ensures cpu.Valid() && Valid(cpu.nodes) && cpu.State() == old(cpu.State())
      ensures t == old(State()).waiters[0] && t in cpu.tasks && t !in cpu.Queued() && t !in Entries(waiterQueue.items)
      ensures State() == old(State()).(waiters := old(State()).waiters[1..], woken := old(woken) + {t})
      ensures forall u :: u in Entries(waiterQueue.items) ==> u !in cpu.Queued()
    {
      ghost var first, before := waiterQueue.items[0], waiterQueue.items;
      assert Entries(before)[0] == first.entry && first.entry in Entries(before);
      UnmixedByTask(cpu.readyQueue, waiterQueue, cpu.nodes, first.entry);
      label BeforeOut:
      var node := waiterQueue.Out();
      Untouched@BeforeOut(cpu.readyQueue);
      NodeLeft(waiterQueue, node, before);
      assert Entries(before)[1..] == Entries(waiterQueue.items);
      t := node.entry;
      woken := woken + {t};
    }

    /** The first waiter becomes ready; its node changes rings. */
    method WakeFirst(cpu: Processor) returns (ok: bool)
      requires cpu.Valid() && Valid(cpu.nodes) && waiterQueue != cpu.readyQueue && waiterQueue.items != []
      requires forall t :: t in Entries(waiterQueue.items) ==> t !in cpu.Queued()
      modifies this`woken, waiterQueue, waiterQueue.items, cpu`tasks, cpu.readyQueue, cpu.readyQueue.items
      ensures old(State()).waiters[0] in old(cpu.tasks)
      ensures var r := Unblock(old(cpu.State()), old(State()).waiters[0]);
              (ok <==> r.Ok?) && (ok ==> cpu.Valid() && Valid(cpu.nodes) && cpu.State() == r.value)
      ensures var w := old(State()).waiters;
              State() == old(State()).(waiters := w[1..], woken := old(woken) + {w[0]})
    {
      var t := TakeFirst(cpu);
      UnmixedByTask(waiterQueue, cpu.readyQueue, cpu.nodes, t);
      label BeforeWake:
      ok := cpu.ThreadUnblock(t);
      Untouched@BeforeWake(waiterQueue);
    }

    /** Of sema_up, all but the value. */
    method WakeIfWaiting(cpu: Processor) returns (ok: bool)
      requires cpu.Valid() && Valid(cpu.nodes) && waiterQueue != cpu.readyQueue
      requires forall t :: t in State().waiters ==> t !in cpu.Queued()
      modifies this`woken, waiterQueue, waiterQueue.items, cpu`tasks, cpu.readyQueue, cpu.readyQueue.items
      ensures WakesFirst(old(cpu.State()), old(State()).waiters, ok, cpu.State())
      ensures ok ==> cpu.Valid() && Valid(cpu.nodes)
      ensures var w := old(State()).waiters;
              State() == if w == [] then old(State()) else old(State()).(waiters := w[1..], woken := old(woken) + {w[0]})
    {
      ok := true;
      var empty := waiterQueue.Empty();
      if !empty {
        ok := WakeFirst(cpu);
      }
    }

    method RaiseValue() returns (ok: bool)
      modifies this`value, this`owner
      ensures State() == old(State()).(value := (old(value) + 1) % 256, owner := None) && (ok <==> value == 1)
    {
      value := (value + 1) % 256;
      owner := None;
      ok := value == 1;
    }

    /** sema_up behind its first assertion */
    method WakeAndRaise(cpu: Processor) returns (ok: bool)
      requires cpu.Valid() && Valid(cpu.nodes) && waiterQueue != cpu.readyQueue && value == 0
      requires forall t :: t in State().waiters ==> t !in cpu.Queued()
      modifies this, waiterQueue, waiterQueue.items, cpu`tasks, cpu.readyQueue, cpu.readyQueue.items
      ensures WakesFirst(old(cpu.State()), old(State()).waiters, ok, cpu.State())
      ensures ok ==> cpu.Valid() && Valid(cpu.nodes) && State() == Sync.Raised(old(State()))
    {
      ok := WakeIfWaiting(cpu);
      if ok {
        ghost var s, lock := cpu.State(), State();
        ok := RaiseValue();
        assert cpu.State() == s && State() == lock.(value := 1, owner := None);
      }
    }

    /** sema_up */
    method SemaUp(cpu: Processor) returns (ok: bool)
      requires cpu.Valid() && Valid(cpu.nodes) && waiterQueue != cpu.readyQueue
      requires forall t :: t in State().waiters ==> t !in cpu.Queued()
      modifies this, waiterQueue, waiterQueue.items, cpu`tasks, cpu.readyQueue, cpu.readyQueue.items
      ensures old(value) != 0 ==> !ok
      ensures old(value) == 0 ==> WakesFirst(old(cpu.State()), old(State()).waiters, ok, cpu.State())
      ensures ok ==> cpu.Valid() && Valid(cpu.nodes)
      ensures ok ==> State() == Sync.Raised(old(State()))
    {
      if value != 0 { return false; }
      ok := WakeAndRaise(cpu);
    }

    /** Besides other locks over other nodes, none of which it touches. */
    method SemaUpBeside(cpu: Processor, ghost others: set<KernelLock>) returns (ok: bool)
      requires cpu.Valid() && Valid(cpu.nodes) && waiterQueue != cpu.readyQueue
      requires forall t :: t in State().waiters ==> t !in cpu.Queued()
      requires forall o :: o in others ==> o != this && o.Valid(cpu.nodes)
      requires forall o :: o in others ==>
                 Unmixed(o.waiterQueue, waiterQueue, null) && Unmixed(o.waiterQueue, cpu.readyQueue, null)
      modifies this, waiterQueue, waiterQueue.items, cpu`tasks, cpu.readyQueue, cpu.readyQueue.items
      ensures old(value) != 0 ==> !ok
      ensures old(value) == 0 ==> WakesFirst(old(cpu.State()), old(State()).waiters, ok, cpu.State())
      ensures ok ==> cpu.Valid() && Valid(cpu.nodes)
      ensures ok ==> State() == Sync.Raised(old(State()))
      ensures cpu.nodes == old(cpu.nodes) && forall o :: o in others ==> o.Valid(cpu.nodes) && o.State() == old(o.State())
    {
      label Before:
      ok := SemaUp(cpu);
      forall o | o in others
        ensures o.waiterQueue.Valid()
      {
        Untouched@Before(o.waiterQueue);
      }
    }

    /**
      lock_acquire from its test at line 95, when nothing interrupts it: to its return, or, not
      `acquired`, to where the task has lost the processor inside sema_down.
     */
    method LockAcquire(cpu: Processor) returns (ok: bool, acquired: bool)
      requires cpu.Valid() && Valid(cpu.nodes) && waiterQueue != cpu.readyQueue
      requires forall t :: t in State().waiters ==> t !in cpu.Queued() && t != cpu.current && t != cpu.idle
      requires cpu.current !in cpu.Queued() && cpu.idle != cpu.current
      modifies this, waiterQueue, waiterQueue.items, cpu`tasks, cpu`current, cpu.readyQueue, cpu.readyQueue.items
      modifies cpu.nodes[cpu.current], cpu.nodes[cpu.idle]
      ensures acquired <==> old(holder) == Some(old(cpu.current)) || old(value) > 0
      ensures ok ==> cpu.Valid() && Valid(cpu.nodes)
      ensures old(holder) == Some(old(cpu.current)) ==>
                ok && State() == old(State()).(repeat := old(repeat) + 1) && cpu.State() == old(cpu.State())
      ensures acquired && old(holder) != Some(old(cpu.current)) ==>
                (ok <==> old(value) == 1 && old(repeat) == 0) && cpu.State() == old(cpu.State())
      ensures acquired && ok && old(holder) != Some(old(cpu.current)) ==>
                State() == Sync.Takes(old(State()), cpu.current).(holder := Some(cpu.current), repeat := 1)
      ensures !acquired ==>
                State() == Sync.Joins(old(State()), old(cpu.current)) && (ok <==> Block(old(cpu.State()), Blocked).Ok?)
      ensures !acquired && ok ==> Ok(cpu.State()) == Block(old(cpu.State()), Blocked)
      ensures !acquired ==> State().waiters == old(State()).waiters + [old(cpu.current)]
    {
      ok, acquired := true, true;
      if holder != Some(cpu.current) {
        ok, acquired := SemaDownPass(cpu);
        if !ok || !acquired { return; }
        holder := Some(cpu.current);
        if repeat != 0 { return false, true; }
        repeat := 1;
      } else {
        repeat := repeat + 1;
      }
    }

    /** lock_release from its assertion at line 117 to its return, when nothing interrupts it. */
    method LockRelease(cpu: Processor) returns (ok: bool)
      requires cpu.Valid() && Valid(cpu.nodes) && waiterQueue != cpu.readyQueue
      requires forall t :: t in State().waiters ==> t !in cpu.Queued()
      modifies this, waiterQueue, waiterQueue.items, cpu`tasks, cpu.readyQueue, cpu.readyQueue.items
      ensures ok ==> old(holder) == Some(old(cpu.current)) && old(repeat) >= 1
      ensures old(holder) == Some(old(cpu.current)) && old(repeat) > 1 ==> ok
      ensures old(holder) == Some(old(cpu.current)) && old(repeat) == 1 && old(value) != 0 ==> !ok
      ensures old(holder) == Some(old(cpu.current)) && old(repeat) == 1 && old(value) == 0 ==>
                WakesFirst(old(cpu.State()), old(State()).waiters, ok, cpu.State())
      ensures ok ==> cpu.Valid() && Valid(cpu.nodes)
      ensures ok && old(repeat) > 1 ==> State() == old(State()).(repeat := old(repeat) - 1) && cpu.State() == old(cpu.State())
      ensures ok && old(repeat) == 1 ==> State() == Sync.Raised(old(State()).(holder := None, repeat := 0))
    {
      if holder != Some(cpu.current) { return false; }
      if repeat > 1 {
        repeat := repeat - 1;
        return true;
      }
      if repeat != 1 { return false; }
      holder := None;
      repeat := 0;
      ok := SemaUp(cpu);
    }
  }

  /** After queue_out the task that left is not in the queue: rings have no node twice. */
  lemma NodeLeft(q: Queue, node: Node, before: seq<Node>)
    requires before != [] && Distinct(before) && node == before[0] && q.items == before[1..]
    requires forall i, j :: 0 <= i < |before| && 0 <= j < |before| && before[i].entry == before[j].entry ==>
             before[i] == before[j]
    ensures node.entry !in Entries(q.items)
  {
    forall i | 0 <= i < |q.items|
      ensures q.items[i].entry != node.entry
    {
      assert before[i + 1] == q.items[i] && before[0] != before[i + 1];
    }
  }

  // ---------------------------------------------------------------------------
  // The whole kernel
  // ---------------------------------------------------------------------------

  /** A task that waits for a lock is in no other queue, does not run, and is not idle. */
  lemma WaitersElsewhere(k: Sync.Kernel, l: Sync.LockId)
    requires Sync.Inv(k) && l in k.locks
    ensures forall t :: t in k.locks[l].waiters ==>
              t in k.sched.tasks && t !in k.sched.ready && t != k.sched.current && t != k.sched.idle
    ensures forall m, t :: m in k.locks && m != l && t in k.locks[l].waiters ==> t !in k.locks[m].waiters
  {
    Sync.WaitersAreNowhereElse(k);
    forall t | t in k.locks[l].waiters
      ensures t != k.sched.idle && Sync.OnlyWaitsFor(k, l, t)
    {
      assert k.local[t].pc == Sync.Down(l);
    }
  }

  /** A lock as lock_init leaves it, with a queue other than `q`. */
  ghost predicate IsFree(o: KernelLock, q: Queue)
    reads o, o.waiterQueue, o.waiterQueue.items
  {
    o.State() == Sync.FREE && o.waiterQueue.items == [] && o.waiterQueue.Valid() && o.waiterQueue != q
  }

  function Below(n: nat): (r: set<nat>)
    ensures forall i: nat :: i in r <==> i < n
  {
    if n == 0 then {} else Below(n - 1) + {n - 1}
  }

  method FreeLocks(q: Queue, count: nat) returns (made: map<Sync.LockId, KernelLock>)
    ensures made.Keys == Below(count) && forall l :: l in made ==> fresh(made[l]) && fresh(made[l].waiterQueue)
    ensures forall l :: l in made ==> IsFree(made[l], q)
    ensures forall l, m :: l in made && m in made && l != m ==>
              made[l] != made[m] && made[l].waiterQueue != made[m].waiterQueue
  {
    made := map[];
    var i := 0;
    while i < count
      invariant i <= count && made.Keys == Below(i)
      invariant forall l :: l in made ==> fresh(made[l]) && fresh(made[l].waiterQueue)
      invariant forall l :: l in made ==> IsFree(made[l], q)
      invariant forall l, m :: l in made && m in made && l != m ==>
                  made[l] != made[m] && made[l].waiterQueue != made[m].waiterQueue
    {
      var lock := new KernelLock();
      made := made[i := lock];
      i := i + 1;
    }
  }

  /** The processor with its ready queue, and the locks with their waiter queues, all rings over the same nodes. */
  class KernelImage {
    const cpu: Processor
    const locks: map<Sync.LockId, KernelLock>

    /** After boot, with `count` free locks. */
    constructor (main: Task, idle_thread: Task, count: nat, prio: nat)
      requires main != idle_thread
      ensures Is(Sync.Boot(main, idle_thread, Below(count), prio)) && fresh(cpu)
    {
      var processor := new Processor(main, idle_thread, prio);
      var made := FreeLocks(processor.readyQueue, count);
      cpu, locks := processor, made;
      new;
      forall l | l in locks
        ensures LockIs(l, Sync.FREE)
      {
        assert IsFree(locks[l], cpu.readyQueue);
      }
    }

    ghost predicate LockIs(l: Sync.LockId, lock: Sync.Lock)
      requires l in locks
      reads cpu, locks[l], locks[l].waiterQueue, locks[l].waiterQueue.items
    {
      locks[l].Valid(cpu.nodes) && locks[l].State() == lock && locks[l].waiterQueue != cpu.readyQueue
    }

    predicate Separate()
    {
      forall l, m :: l in locks && m in locks && l != m ==>
          locks[l] != locks[m] && locks[l].waiterQueue != locks[m].waiterQueue
    }

    /** What is in memory is the kernel k. */
    ghost predicate Is(k: Sync.Kernel)
      reads *
    {
      && cpu.Valid() && cpu.State() == k.sched && locks.Keys == k.locks.Keys && Separate()
      && forall l :: l in locks ==> LockIs(l, k.locks[l])
    }

    /** The nodes in the queue of m are in none of the places a step of lock l writes. */
    lemma ApartFrom(k: Sync.Kernel, l: Sync.LockId, m: Sync.LockId)
      requires Is(k) && Sync.Inv(k) && l in locks && m in locks && l != m
      ensures Unmixed(locks[m].waiterQueue, locks[l].waiterQueue, cpu.nodes[cpu.current])
      ensures Unmixed(locks[m].waiterQueue, cpu.readyQueue, cpu.nodes[cpu.idle])
    {
      assert LockIs(l, k.locks[l]) && LockIs(m, k.locks[m]);
      WaitersElsewhere(k, m);
      UnmixedByTask(locks[m].waiterQueue, locks[l].waiterQueue, cpu.nodes, cpu.current);
      UnmixedByTask(locks[m].waiterQueue, cpu.readyQueue, cpu.nodes, cpu.idle);
    }

    /** All but lock l are as in ls. */
    ghost predicate OthersAre(l: Sync.LockId, ls: map<Sync.LockId, Sync.Lock>)
      requires locks.Keys == ls.Keys
      reads *
    {
      forall m :: m in locks && m != l ==> LockIs(m, ls[m])
    }

    /** One lock and the schedule have changed as they should. */
    lemma Assemble(l: Sync.LockId, k: Sync.Kernel, k': Sync.Kernel)
      requires cpu.Valid() && cpu.State() == k'.sched && locks.Keys == k.locks.Keys && Separate() && l in locks
      requires l in k'.locks && k'.locks == k.locks[l := k'.locks[l]] && LockIs(l, k'.locks[l]) && OthersAre(l, k.locks)
      ensures Is(k')
    {
      forall m | m in locks
        ensures LockIs(m, k'.locks[m])
      {
        if m != l { assert LockIs(m, k.locks[m]); }
      }
    }

    /** What sema_down may rely on, and what it does not touch. */
    lemma BeforeDown(k: Sync.Kernel, l: Sync.LockId)
      requires Is(k) && Sync.Inv(k) && l in k.locks && k.local[k.sched.current].pc == Sync.Down(l)
      ensures LockIs(l, k.locks[l]) && OthersAre(l, k.locks) && cpu.current !in cpu.Queued() && cpu.idle != cpu.current
      ensures forall t :: t in locks[l].State().waiters ==> t !in cpu.Queued() && t != cpu.current && t != cpu.idle
      ensures forall m :: m in locks && m != l ==>
                && Unmixed(locks[m].waiterQueue, locks[l].waiterQueue, cpu.nodes[cpu.current])
                && Unmixed(locks[m].waiterQueue, cpu.readyQueue, cpu.nodes[cpu.idle])
    {
      Sync.RunnerDoesNotWait(k, l);
      WaitersElsewhere(k, l);
      assert LockIs(l, k.locks[l]) && k.sched.tasks[k.sched.current].status == Running;
      forall m | m in locks && m != l
        ensures Unmixed(locks[m].waiterQueue, locks[l].waiterQueue, cpu.nodes[cpu.current])
        ensures Unmixed(locks[m].waiterQueue, cpu.readyQueue, cpu.nodes[cpu.idle])
      {
        ApartFrom(k, l, m);
      }
    }

    method DownPass(l: Sync.LockId, ghost ls: map<Sync.LockId, Sync.Lock>) returns (ok: bool, taken: bool)
      requires cpu.Valid() && l in locks && locks.Keys == ls.Keys && Separate() && LockIs(l, ls[l]) && OthersAre(l, ls)
      requires forall t :: t in locks[l].State().waiters ==> t !in cpu.Queued() && t != cpu.current && t != cpu.idle
      requires cpu.current !in cpu.Queued() && cpu.idle != cpu.current
      requires forall m :: m in locks && m != l ==>
                && Unmixed(locks[m].waiterQueue, locks[l].waiterQueue, cpu.nodes[cpu.current])
                && Unmixed(locks[m].waiterQueue, cpu.readyQueue, cpu.nodes[cpu.idle])
      modifies locks[l], locks[l].waiterQueue, locks[l].waiterQueue.items
      modifies cpu, cpu.readyQueue, cpu.readyQueue.items, cpu.nodes[cpu.current], cpu.nodes[cpu.idle]
      ensures OthersAre(l, ls) && cpu.nodes == old(cpu.nodes) && (taken <==> ls[l].value > 0)
      ensures ok ==> cpu.Valid() && locks[l].Valid(cpu.nodes)
      ensures !taken ==> (ok <==> Block(old(cpu.State()), Blocked).Ok?)
      ensures !taken && ok ==> Ok(cpu.State()) == Block(old(cpu.State()), Blocked)
      ensures !taken ==> locks[l].State() == Sync.Joins(ls[l], old(cpu.current))
      ensures taken ==> (ok <==> ls[l].value == 1) && cpu.State() == old(cpu.State())
      ensures taken ==> locks[l].State() == Sync.Takes(ls[l], cpu.current)
    {
      ghost var others := set m | m in locks && m != l :: locks[m];
      assert forall m :: m in locks && m != l ==> LockIs(m, ls[m]) && locks[m] in others;
      ok, taken := locks[l].SemaDownBeside(cpu, others);
    }

    /** One pass of sema_down on lock l is one step of the kernel, and every other lock is left alone. */
    method Down(l: Sync.LockId, ghost k: Sync.Kernel)
      requires Is(k) && Sync.Inv(k) && l in k.locks && k.local[k.sched.current].pc == Sync.Down(l)
      modifies locks[l], locks[l].waiterQueue, locks[l].waiterQueue.items
      modifies cpu, cpu.readyQueue, cpu.readyQueue.items, cpu.nodes[cpu.current], cpu.nodes[cpu.idle]
      ensures Sync.Runnable(k) && Sync.DownStep(k, l).Next? && Is(Sync.DownStep(k, l).k)
    {
      BeforeDown(k, l);
      ghost var k' := DownParts(k, l);
      DownTo(l, k, k');
    }

    method DownTo(l: Sync.LockId, ghost k: Sync.Kernel, ghost k': Sync.Kernel)
      requires Is(k) && l in k.locks && LockIs(l, k.locks[l]) && OthersAre(l, k.locks)
      requires forall t :: t in locks[l].State().waiters ==> t !in cpu.Queued() && t != cpu.current && t != cpu.idle
      requires cpu.current !in cpu.Queued() && cpu.idle != cpu.current
      requires forall m :: m in locks && m != l ==>
                && Unmixed(locks[m].waiterQueue, locks[l].waiterQueue, cpu.nodes[cpu.current])
                && Unmixed(locks[m].waiterQueue, cpu.readyQueue, cpu.nodes[cpu.idle])
      requires DownLeads(k, l, k')
      modifies locks[l], locks[l].waiterQueue, locks[l].waiterQueue.items
      modifies cpu, cpu.readyQueue, cpu.readyQueue.items, cpu.nodes[cpu.current], cpu.nodes[cpu.idle]
      ensures Is(k')
    {
      var ok, taken := DownPass(l, k.locks);
      DownMatches(k, l, k', ok, taken, cpu.State(), locks[l].State());
      Assemble(l, k, k');
    }

    /** What sema_up may rely on, and what it does not touch. */
    lemma BeforeUp(k: Sync.Kernel, l: Sync.LockId)
      requires Is(k) && Sync.Inv(k) && l in k.locks
      ensures LockIs(l, k.locks[l]) && OthersAre(l, k.locks)
      ensures forall t :: t in locks[l].State().waiters ==> t !in cpu.Queued()
      ensures forall m :: m in locks && m != l ==>
                Unmixed(locks[m].waiterQueue, locks[l].waiterQueue, null)
                  && Unmixed(locks[m].waiterQueue, cpu.readyQueue, null)
    {
      WaitersElsewhere(k, l);
      assert LockIs(l, k.locks[l]);
      forall m | m in locks && m != l
        ensures Unmixed(locks[m].waiterQueue, locks[l].waiterQueue, null)
                && Unmixed(locks[m].waiterQueue, cpu.readyQueue, null)
      {
        ApartFrom(k, l, m);
      }
    }

    method UpPass(l: Sync.LockId, ghost ls: map<Sync.LockId, Sync.Lock>) returns (ok: bool)
      requires cpu.Valid() && l in locks && locks.Keys == ls.Keys && Separate() && LockIs(l, ls[l]) && OthersAre(l, ls)
      requires forall t :: t in locks[l].State().waiters ==> t !in cpu.Queued()
      requires forall m :: m in locks && m != l ==>
                Unmixed(locks[m].waiterQueue, locks[l].waiterQueue, null)
                  && Unmixed(locks[m].waiterQueue, cpu.readyQueue, null)
      modifies locks[l], locks[l].waiterQueue, locks[l].waiterQueue.items, cpu, cpu.readyQueue, cpu.readyQueue.items
      ensures OthersAre(l, ls)
      ensures ls[l].value == 0 ==> WakesFirst(old(cpu.State()), ls[l].waiters, ok, cpu.State())
      ensures ok ==> cpu.Valid() && LockIs(l, Sync.Raised(ls[l]))
    {
      ghost var others := set m | m in locks && m != l :: locks[m];
      assert forall m :: m in locks && m != l ==> LockIs(m, ls[m]) && locks[m] in others;
      ok := locks[l].SemaUpBeside(cpu, others);
    }

    /** sema_up on lock l, with the return from lock_release, is one step of the kernel. */
    method Up(l: Sync.LockId, ghost k: Sync.Kernel)
      requires Is(k) && Sync.Inv(k) && l in k.locks && k.local[k.sched.current].pc == Sync.Up(l)
      modifies locks[l], locks[l].waiterQueue, locks[l].waiterQueue.items, cpu, cpu.readyQueue, cpu.readyQueue.items
      ensures Sync.Runnable(k) && Sync.UpStep(k, l).Next? && Is(Sync.UpStep(k, l).k)
    {
      BeforeUp(k, l);
      ghost var k' := UpParts(k, l);
      UpTo(l, k, k');
    }

    method UpTo(l: Sync.LockId, ghost k: Sync.Kernel, ghost k': Sync.Kernel)
      requires Is(k) && l in k.locks && LockIs(l, k.locks[l]) && OthersAre(l, k.locks)
      requires forall t :: t in locks[l].State().waiters ==> t !in cpu.Queued()
      requires forall m :: m in locks && m != l ==>
                Unmixed(locks[m].waiterQueue, locks[l].waiterQueue, null)
                  && Unmixed(locks[m].waiterQueue, cpu.readyQueue, null)
      requires k.locks[l].value == 0 && k'.locks == k.locks[l := Sync.Raised(k.locks[l])]
      requires var w := k.locks[l].waiters;
               (w != [] ==> w[0] in k.sched.tasks) && Ok(k'.sched) == if w == [] then Ok(k.sched) else Unblock(k.sched, w[0])
      modifies locks[l], locks[l].waiterQueue, locks[l].waiterQueue.items, cpu, cpu.readyQueue, cpu.readyQueue.items
      ensures Is(k')
    {
      var ok := UpPass(l, k.locks);
      Assemble(l, k, k');
    }

    /** What happens to the schedule alone leaves every lock alone. */
    method Reschedule(e: Happening, ghost k: Sync.Kernel, ghost s: Sched)
      requires Is(k) && Coherent(k.sched) && (e.Wakes? ==> e.t in k.sched.tasks) && Ok(s) == Serving(k.sched, e)
      requires forall l :: l in k.locks ==> Bystanders(k.sched, e, k.locks[l].waiters)
      modifies cpu`tasks, cpu`current, cpu.readyQueue, cpu.readyQueue.items, cpu.nodes[cpu.current], cpu.nodes[cpu.idle]
      modifies if e.Wakes? then {cpu.nodes[e.t]} else {}
      ensures Is(k.(sched := s))
    {
      ghost var others := set m | m in locks :: locks[m];
      assert forall m :: m in locks ==> LockIs(m, k.locks[m]) && locks[m] in others;
      var ok := ServeBeside(cpu, e, Ok(s), others);
      assert forall m :: m in locks ==> LockIs(m, k.locks[m]);
    }

    /** Idle blocks itself. */
    method IdleBlocks(ghost k: Sync.Kernel)
      requires Is(k) && Sync.Inv(k) && Sync.Runnable(k) && k.local[k.sched.current].pc == Sync.IdleBlock
      modifies cpu`tasks, cpu`current, cpu.readyQueue, cpu.readyQueue.items, cpu.nodes[cpu.current], cpu.nodes[cpu.idle]
      ensures Sync.ExecStep(k).Next? && Is(Sync.ExecStep(k).k)
    {
      ghost var k', s := IdleParts(k);
      Reschedule(Blocks(Blocked), k, s);
      OnlyScheduleAndLocks(k.(sched := s), k');
    }

    /** Where the tasks are in their code is not in memory. */
    lemma OnlyScheduleAndLocks(k: Sync.Kernel, k': Sync.Kernel)
      requires Is(k) && k'.sched == k.sched && k'.locks == k.locks
      ensures Is(k')
    {
    }

    method RunStatement(l: Sync.LockId, pc: Sync.Pc, ghost ls: map<Sync.LockId, Sync.Lock>, ghost loc: Sync.Local,
                        ghost e: Sync.Effect) returns (ok: bool)
      requires l in locks && locks.Keys == ls.Keys && Separate() && LockIs(l, ls[l]) && OthersAre(l, ls)
      requires loc.pc == pc && Sync.AtStatement(loc, l) && e == Sync.EffectOf(ls[l], cpu.current, loc, l)
      modifies locks[l]
      ensures OthersAre(l, ls) && ok == e.ok && LockIs(l, e.lock)
    {
      ghost var others := set m | m in locks && m != l :: locks[m];
      assert forall m :: m in locks && m != l ==> LockIs(m, ls[m]) && locks[m] in others;
      ok := locks[l].StatementBeside(pc, cpu.current, ls[l], loc, l, e, others, cpu.nodes);
    }

    /** A statement of lock_acquire or lock_release is one step of the kernel, or fails where the kernel does. */
    method Statement(l: Sync.LockId, pc: Sync.Pc, ghost k: Sync.Kernel) returns (ok: bool)
      requires Is(k) && Sync.Runnable(k) && l in k.locks && pc == k.local[k.sched.current].pc
      requires Sync.AtStatement(k.local[k.sched.current], l)
      modifies locks[l]
      ensures ok <==> Sync.Statement(k, l).Next?
      ensures ok ==> Is(Sync.Statement(k, l).k)
    {
      assert LockIs(l, k.locks[l]);
      ghost var loc := k.local[k.sched.current];
      ghost var e := Sync.EffectOf(k.locks[l], k.sched.current, loc, l);
      ok := RunStatement(l, pc, k.locks, loc, e);
      if ok { Assemble(l, k, Sync.Write(k, l, e.lock, e.loc)); }
    }

    /** No waiter is in the ready queue. */
    lemma BeforeStart(k: Sync.Kernel)
      requires Is(k) && Sync.Inv(k)
      ensures forall m :: m in locks ==> LockIs(m, k.locks[m]) && Unmixed(locks[m].waiterQueue, cpu.readyQueue, null)
    {
      forall m | m in locks
        ensures LockIs(m, k.locks[m]) && Unmixed(locks[m].waiterQueue, cpu.readyQueue, null)
      {
        assert LockIs(m, k.locks[m]);
        WaitersElsewhere(k, m);
        UnmixedByTask(locks[m].waiterQueue, cpu.readyQueue, cpu.nodes, cpu.idle);
      }
    }

    method StartTo(t: Task, prio: nat, ghost k: Sync.Kernel)
      requires Is(k) && t !in k.sched.tasks && Start(k.sched, t, prio).Ok?
      requires forall m :: m in locks ==> LockIs(m, k.locks[m]) && Unmixed(locks[m].waiterQueue, cpu.readyQueue, null)
      modifies cpu`tasks, cpu`nodes, cpu.readyQueue, cpu.readyQueue.items
      ensures cpu.Valid() && cpu.State() == Start(k.sched, t, prio).value
      ensures forall m :: m in locks ==> LockIs(m, k.locks[m])
    {
      ghost var others := set m | m in locks :: locks[m];
      assert forall m :: m in locks ==> locks[m] in others;
      var ok := StartBeside(cpu, t, prio, others);
    }

    /** thread_start is one step of the kernel. */
    method StartTask(t: Task, prio: nat, ghost k: Sync.Kernel)
      requires Is(k) && Sync.Inv(k) && Sync.Runnable(k) && t !in k.sched.tasks && k.local[k.sched.current].pc == Sync.Client
      modifies cpu`tasks, cpu`nodes, cpu.readyQueue, cpu.readyQueue.items
      ensures Sync.Step(k, Sync.CallStart(t, prio)).Next? && Is(Sync.Step(k, Sync.CallStart(t, prio)).k)
    {
      BeforeStart(k);
      ghost var k' := StartParts(k, t, prio);
      StartTo(t, prio, k);
      AllAre(k');
    }

    lemma AllAre(k': Sync.Kernel)
      requires cpu.Valid() && cpu.State() == k'.sched && locks.Keys == k'.locks.Keys && Separate()
      requires forall m :: m in locks ==> LockIs(m, k'.locks[m])
      ensures Is(k')
    {
    }

    /** A clock interrupt, a yield, or a task that blocks or is woken outside the locks, is one step of the kernel. */
    method Happen(e: Happening, ghost k: Sync.Kernel)
      requires Is(k) && Sync.Inv(k) && Sync.Runnable(k) && Sync.Step(k, EventOf(e)) != Sync.Impossible
      modifies cpu`tasks, cpu`current, cpu.readyQueue, cpu.readyQueue.items, cpu.nodes[cpu.current], cpu.nodes[cpu.idle]
      modifies if e.Wakes? && e.t in cpu.nodes then {cpu.nodes[e.t]} else {}
      ensures Sync.Step(k, EventOf(e)).Next? && Is(Sync.Step(k, EventOf(e)).k)
    {
      ghost var s := HappeningParts(k, e);
      Reschedule(e, k, s);
    }
  }

  function EventOf(e: Happening): Sync.Event
  {
    match e
    case Ticks => Sync.ClockTick
    case Yields => Sync.CallYield
    case Blocks(st) => Sync.CallBlock(st)
    case Wakes(t) => Sync.WakeUp(t)
  }

  lemma StartParts(k: Sync.Kernel, t: Task, prio: nat) returns (k': Sync.Kernel)
    requires Sync.Inv(k) && Sync.Runnable(k) && t !in k.sched.tasks && k.local[k.sched.current].pc == Sync.Client
    ensures Sync.Step(k, Sync.CallStart(t, prio)) == Sync.Next(k') && k'.locks == k.locks
    ensures Start(k.sched, t, prio) == Ok(k'.sched)
  {
    StartKeeps(k.sched, t, prio);
    k' := Sync.Step(k, Sync.CallStart(t, prio)).k;
  }

  lemma IdleParts(k: Sync.Kernel) returns (k': Sync.Kernel, s: Sched)
    requires Sync.Inv(k) && Sync.Runnable(k) && k.local[k.sched.current].pc == Sync.IdleBlock
    ensures Coherent(k.sched) && Ok(s) == Serving(k.sched, Blocks(Blocked))
    ensures Sync.ExecStep(k) == Sync.Next(k') && k'.sched == s && k'.locks == k.locks
    ensures forall l :: l in k.locks ==> Bystanders(k.sched, Blocks(Blocked), k.locks[l].waiters)
  {
    BlockKeeps(k.sched, Blocked);
    s := Block(k.sched, Blocked).value;
    k' := Sync.Goto(k, Sync.IdleHalt).(sched := s);
    AllStandBy(k, Blocks(Blocked));
  }

  lemma HappeningParts(k: Sync.Kernel, e: Happening) returns (s: Sched)
    requires Sync.Inv(k) && Sync.Runnable(k) && Sync.Step(k, EventOf(e)) != Sync.Impossible
    ensures Coherent(k.sched) && (e.Wakes? ==> e.t in k.sched.tasks) && Ok(s) == Serving(k.sched, e)
    ensures Sync.Step(k, EventOf(e)) == Sync.Next(k.(sched := s))
    ensures forall l :: l in k.locks ==> Bystanders(k.sched, e, k.locks[l].waiters)
  {
    HappeningSucceeds(k, e);
    HappeningIsServing(k, e);
    s := Serving(k.sched, e).value;
    AllStandBy(k, e);
  }

  lemma HappeningSucceeds(k: Sync.Kernel, e: Happening)
    requires Sync.Inv(k) && Sync.Runnable(k) && Sync.Step(k, EventOf(e)) != Sync.Impossible
    ensures Sync.Step(k, EventOf(e)).Next? && (e.Wakes? ==> Sync.SleepsOutside(k, e.t))
  {
    Sync.StepKeeps(k, EventOf(e));
  }

  lemma AllStandBy(k: Sync.Kernel, e: Happening)
    requires Sync.Inv(k) && (e.Wakes? ==> Sync.SleepsOutside(k, e.t))
    ensures forall l :: l in k.locks ==> Bystanders(k.sched, e, k.locks[l].waiters)
  {
    forall l | l in k.locks
      ensures Bystanders(k.sched, e, k.locks[l].waiters)
    {
      WaitersStandBy(k, e, l);
    }
  }

  lemma HappeningIsServing(k: Sync.Kernel, e: Happening)
    requires Sync.Runnable(k) && Coherent(k.sched) && Sync.Step(k, EventOf(e)).Next?
    ensures (e.Wakes? ==> e.t in k.sched.tasks) && Serving(k.sched, e).Ok?
    ensures Sync.Step(k, EventOf(e)) == Sync.Next(k.(sched := Serving(k.sched, e).value))
  {
  }

  lemma WaitersStandBy(k: Sync.Kernel, e: Happening, l: Sync.LockId)
    requires Sync.Inv(k) && l in k.locks && (e.Wakes? ==> Sync.SleepsOutside(k, e.t))
    ensures Bystanders(k.sched, e, k.locks[l].waiters)
  {
    WaitersElsewhere(k, l);
    assert forall t :: t in k.locks[l].waiters ==> k.local[t].pc == Sync.Down(l);
  }

  /** What sema_up does, part by part. */
  lemma UpParts(k: Sync.Kernel, l: Sync.LockId) returns (k': Sync.Kernel)
    requires Sync.Inv(k) && l in k.locks && k.local[k.sched.current].pc == Sync.Up(l)
    ensures Sync.Runnable(k) && Sync.UpStep(k, l) == Sync.Next(k')
    ensures k.locks[l].value == 0 && k'.locks == k.locks[l := Sync.Raised(k.locks[l])]
    ensures var w := k.locks[l].waiters;
            (w != [] ==> w[0] in k.sched.tasks) && Ok(k'.sched) == if w == [] then Ok(k.sched) else Unblock(k.sched, w[0])
  {
    Sync.InvIsRunnable(k);
    Sync.RaiseKeeps(k, l);
    k' := Sync.UpStep(k, l).k;
    assert k.locks[l].waiters != [] ==> k.locks[l].waiters[0] in k.locks[l].waiters;
  }

  /** What one pass of sema_down does, part by part. */
  predicate DownLeads(k: Sync.Kernel, l: Sync.LockId, k': Sync.Kernel)
    requires l in k.locks && k.sched.current in k.sched.tasks && k.sched.idle in k.sched.tasks
    requires forall t :: t in k.sched.ready ==> t in k.sched.tasks
  {
    var lock := k.locks[l];
    if lock.value == 0 then
      Ok(k'.sched) == Block(k.sched, Blocked) && k'.locks == k.locks[l := Sync.Joins(lock, k.sched.current)]
    else
      lock.value == 1 && k'.sched == k.sched && k'.locks == k.locks[l := Sync.Takes(lock, k.sched.current)]
  }

  lemma DownMatches(k: Sync.Kernel, l: Sync.LockId, k': Sync.Kernel, ok: bool, taken: bool, s: Sched, lock: Sync.Lock)
    requires l in k.locks && k.sched.current in k.sched.tasks && k.sched.idle in k.sched.tasks
    requires (forall t :: t in k.sched.ready ==> t in k.sched.tasks) && DownLeads(k, l, k')
    requires taken <==> k.locks[l].value > 0
    requires !taken ==> (ok <==> Block(k.sched, Blocked).Ok?) && lock == Sync.Joins(k.locks[l], k.sched.current)
    requires !taken && ok ==> Ok(s) == Block(k.sched, Blocked)
    requires taken ==> (ok <==> k.locks[l].value == 1) && s == k.sched && lock == Sync.Takes(k.locks[l], k.sched.current)
    ensures ok && s == k'.sched && k'.locks == k.locks[l := lock]
  {
  }

  lemma DownParts(k: Sync.Kernel, l: Sync.LockId) returns (k': Sync.Kernel)
    requires Sync.Inv(k) && l in k.locks && k.local[k.sched.current].pc == Sync.Down(l)
    ensures Sync.Runnable(k) && Sync.DownStep(k, l) == Sync.Next(k') && DownLeads(k, l, k')
  {
    Sync.InvIsRunnable(k);
    Sync.DownKeeps(k, l);
    k' := Sync.DownStep(k, l).k;
  }
}
