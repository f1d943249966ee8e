/**
  The handshake of device/ide.c: tasks that call ide_read and ide_write on one channel, and the interrupt
  handler, which may run between any two of their statements, whether or not the drive has anything to say.

  The channel lock is the one module Sync proves, where its holder may sleep as it does here: one holder at a
  time. sema_down and the handler run with
  interrupts off and are one step each.
 */
module IdeHandshake {
  import opened Machine

  datatype Kind = Read | Write

  /** Where a task is; `left` counts the commands still to send, this one included. Numbers are lines. */
  datatype Pc =
    | Outside
    | Locking(kind: Kind, left: nat)   // 186, 225: about to take the channel lock
    | Looping(kind: Kind, left: nat)   // 191, 230: at the loop test, or past it and before the command
    | SetWait(kind: Kind, left: nat)   // 124: wait_intr = TRUE
    | Command(kind: Kind, left: nat)   // 125: writes the command register
    | Down(kind: Kind, left: nat)      // 207, 253: about to test disk_ok, first or again after a wake-up
    | Asleep(kind: Kind, left: nat)    // among the waiters of disk_ok
    | Poll(kind: Kind, left: nat)      // 209, 245: busy_wait
    | Data(kind: Kind, left: nat)      // 216, 252: moves the data
    | Unlocking                        // 219, 256

  /**
    The channel and the tasks; `lock` is the holder of the channel lock, `ok` the value of disk_ok. The
    counters are bookkeeping: commands begun, waits finished.
   */
  datatype Sys = Sys(
    lock: Option<Task>, waitIntr: bool, ok: nat, waiters: seq<Task>, pc: map<Task, Pc>,
    begun: nat, consumed: nat)

  datatype Event =
    | Call(t: Task, kind: Kind, chunks: nat)
    | Run(t: Task)                     // the statement at its place
    | DriveFails(t: Task)              // busy_wait gives up: the driver stops the machine
    | Interrupt                        // hard_disk_service

  datatype Next = Next(sys: Sys) | Assertion(line: nat) | DriveError | Impossible

  function PcOf(sys: Sys, t: Task): Pc
  {
    if t in sys.pc then sys.pc[t] else Outside
  }

  function Goto(sys: Sys, t: Task, pc: Pc): Sys
  {
    sys.(pc := sys.pc[t := pc])
  }

  /** One command is done. */
  function Fewer(left: nat): nat
  {
    if left > 0 then left - 1 else 0
  }

  /** sema_down(disk_ok) from its loop test; a read then polls, a write has finished this command. */
  function DownStep(sys: Sys, t: Task, kind: Kind, left: nat): Next
  {
    if sys.ok == 0 then
      if t in sys.waiters then Assertion(45) else Next(Goto(sys.(waiters := sys.waiters + [t]), t, Asleep(kind, left)))
    else if sys.ok != 1 then Assertion(59)
    else
      var after := if kind.Read? then Poll(kind, left) else Looping(kind, Fewer(left));
      Next(Goto(sys.(ok := sys.ok - 1, consumed := sys.consumed + 1), t, after))
  }

  function RunStep(sys: Sys, t: Task): Next
  {
    match PcOf(sys, t)
    case Outside => Impossible
    case Asleep(_, _) => Impossible
    case Locking(kind, left) =>
      if sys.lock == None then Next(Goto(sys.(lock := Some(t)), t, Looping(kind, left))) else Impossible
    case Looping(kind, left) => Next(Goto(sys, t, if left > 0 then SetWait(kind, left) else Unlocking))
    case SetWait(kind, left) => Next(Goto(sys.(waitIntr := true, begun := sys.begun + 1), t, Command(kind, left)))
    case Command(kind, left) => Next(Goto(sys, t, if kind.Read? then Down(kind, left) else Poll(kind, left)))
    case Down(kind, left) => DownStep(sys, t, kind, left)
    case Poll(kind, left) => Next(Goto(sys, t, Data(kind, left)))
    case Data(kind, left) => Next(Goto(sys, t, if kind.Read? then Looping(kind, Fewer(left)) else Down(kind, left)))
    case Unlocking => if sys.lock == Some(t) then Next(Goto(sys.(lock := None), t, Outside)) else Assertion(117)
  }

  /** hard_disk_service with sema_up(disk_ok); the first waiter goes back to its test. */
  function InterruptStep(sys: Sys): Next
  {
    if !sys.waitIntr then Next(sys)
    else if sys.ok != 0 then Assertion(72)
    else
      var up := sys.(waitIntr := false, ok := (sys.ok + 1) % 256);
      if sys.waiters == [] then Next(up)
      else
        match PcOf(sys, sys.waiters[0])
        case Asleep(kind, left) => Next(Goto(up.(waiters := sys.waiters[1..]), sys.waiters[0], Down(kind, left)))
        case _ => Assertion(79)
  }

  function Step(sys: Sys, e: Event): Next
  {
    match e
    case Call(t, kind, chunks) =>
      if !PcOf(sys, t).Outside? then Impossible
      else if chunks == 0 then Assertion(185)
      else Next(Goto(sys, t, Locking(kind, chunks)))
    case Run(t) => RunStep(sys, t)
    case DriveFails(t) => if PcOf(sys, t).Poll? then DriveError else Impossible
    case Interrupt => InterruptStep(sys)
  }

  /** Between taking and giving back the channel lock. */
  predicate Inside(pc: Pc)
  {
    !pc.Outside? && !pc.Locking?
  }

  /** A command has been begun and its completion has not been consumed. */
  predicate Pending(pc: Pc)
  {
    match pc
    case Command(_, _) => true
    case Down(_, _) => true
    case Asleep(_, _) => true
    case Poll(kind, _) => kind.Write?
    case Data(kind, _) => kind.Write?
    case _ => false
  }

  /** Some task has a command pending. */
  predicate Busy(sys: Sys)
  {
    sys.lock.Some? && Pending(PcOf(sys, sys.lock.value))
  }

  /** Inside the loop there is a command left. */
  predicate HasOne(pc: Pc)
  {
    pc.SetWait? || pc.Command? || pc.Down? || pc.Asleep? || pc.Poll? || pc.Data? ==> pc.left > 0
  }

  predicate Inv(sys: Sys)
  {
    && (forall t :: t in sys.pc ==> (Inside(sys.pc[t]) <==> sys.lock == Some(t)))
    && (forall t :: t in sys.pc ==> HasOne(sys.pc[t]))
    && (sys.lock.Some? ==> sys.lock.value in sys.pc)
    && sys.ok <= 1
    && (if Busy(sys) then sys.waitIntr <==> sys.ok == 0 else !sys.waitIntr && sys.ok == 0)
    && sys.begun == sys.consumed + (if Busy(sys) then 1 else 0)
    && WaitersOk(sys)
  }

  /** At most the holder sleeps, and only while the interrupt is outstanding. */
  predicate WaitersOk(sys: Sys)
  {
    if sys.lock.Some? && PcOf(sys, sys.lock.value).Asleep? then sys.waiters == [sys.lock.value] && sys.waitIntr
    else sys.waiters == []
  }

  lemma InterruptKeeps(sys: Sys)
    requires Inv(sys)
    ensures Step(sys, Interrupt).Next? && Inv(Step(sys, Interrupt).sys)
    ensures sys.waitIntr ==>
              var sys' := Step(sys, Interrupt).sys; sys'.ok == 1 && !sys'.waitIntr && sys'.waiters == []
  {
  }

  /** The holder moves on without touching the handshake. */
  lemma MoveKeeps(sys: Sys, t: Task, pc: Pc)
    requires Inv(sys) && sys.lock == Some(t) && Inside(pc) && HasOne(pc)
    requires Pending(pc) == Pending(PcOf(sys, t)) && !pc.Asleep? && !PcOf(sys, t).Asleep?
    ensures Inv(Goto(sys, t, pc))
  {
  }

  lemma BeginKeeps(sys: Sys, t: Task)
    requires Inv(sys) && PcOf(sys, t).SetWait?
    ensures RunStep(sys, t).Next? && Inv(RunStep(sys, t).sys)
  {
  }

  lemma DownKeeps(sys: Sys, t: Task)
    requires Inv(sys) && PcOf(sys, t).Down?
    ensures RunStep(sys, t).Next? && Inv(RunStep(sys, t).sys)
  {
  }

  /** Taking and giving back the channel lock. */
  lemma LockKeeps(sys: Sys, t: Task)
    requires Inv(sys) && (PcOf(sys, t).Locking? || PcOf(sys, t).Unlocking?)
    ensures !RunStep(sys, t).Assertion? && !RunStep(sys, t).DriveError?
    ensures RunStep(sys, t).Next? ==> Inv(RunStep(sys, t).sys)
  {
  }

  lemma RunKeeps(sys: Sys, t: Task)
    requires Inv(sys)
    ensures !RunStep(sys, t).Assertion? && !RunStep(sys, t).DriveError?
    ensures RunStep(sys, t).Next? ==> Inv(RunStep(sys, t).sys)
  {
    match PcOf(sys, t)
    case Outside =>
    case Asleep(_, _) =>
    case SetWait(_, _) => BeginKeeps(sys, t);
    case Down(_, _) => DownKeeps(sys, t);
    case Locking(_, _) => LockKeeps(sys, t);
    case Unlocking => LockKeeps(sys, t);
    case Looping(kind, left) => MoveKeeps(sys, t, if left > 0 then SetWait(kind, left) else Unlocking);
    case Command(kind, left) => MoveKeeps(sys, t, if kind.Read? then Down(kind, left) else Poll(kind, left));
    case Poll(kind, left) => MoveKeeps(sys, t, Data(kind, left));
    case Data(kind, left) => MoveKeeps(sys, t, if kind.Read? then Looping(kind, Fewer(left)) else Down(kind, left));
  }

  /** Every event keeps the invariant; the only assertion that can fail is the caller's, on an empty transfer. */
  lemma StepKeeps(sys: Sys, e: Event)
    requires Inv(sys)
    ensures Step(sys, e).Next? ==> Inv(Step(sys, e).sys)
    ensures Step(sys, e).Assertion? <==> e.Call? && e.chunks == 0 && PcOf(sys, e.t).Outside?
  {
    match e
    case Interrupt => InterruptKeeps(sys);
    case Run(t) => RunKeeps(sys, t);
    case _ =>
  }

  const INITIAL: Sys := Sys(None, false, 0, [], map[], 0, 0)

  /** A finite run of an initialised channel. */
  ghost predicate Behaviour(tr: seq<Sys>, es: seq<Event>)
  {
    |tr| == |es| + 1 && tr[0] == INITIAL && forall i :: 0 <= i < |es| ==> Step(tr[i], es[i]) == Next(tr[i + 1])
  }

  lemma {:induction false} BehavioursKeep(tr: seq<Sys>, es: seq<Event>, i: nat)
    requires Behaviour(tr, es) && i < |tr|
    ensures Inv(tr[i])
    decreases i
  {
    if i > 0 {
      BehavioursKeep(tr, es, i - 1);
      assert Step(tr[i - 1], es[i - 1]) == Next(tr[i]);
      StepKeeps(tr[i - 1], es[i - 1]);
    }
  }

  /**
    In every state of every run: while a command is pending exactly one of `wait_intr` and `disk_ok == 1`
    holds, otherwise neither does; as many completions are consumed as commands begun, but for the pending one.
   */
  lemma ExactlyOne(tr: seq<Sys>, es: seq<Event>, i: nat)
    requires Behaviour(tr, es) && i < |tr|
    ensures Busy(tr[i]) ==> (tr[i].waitIntr <==> tr[i].ok != 1)
    ensures !Busy(tr[i]) ==> !tr[i].waitIntr && tr[i].ok == 0
    ensures tr[i].begun == tr[i].consumed + (if Busy(tr[i]) then 1 else 0)
  {
    BehavioursKeep(tr, es, i);
  }

  /** The handler finds the semaphore at 0 whenever it raises it, and no assertion fails but the caller's. */
  lemma HandlerNeverRaisesTwice(tr: seq<Sys>, es: seq<Event>, i: nat, e: Event)
    requires Behaviour(tr, es) && i < |tr|
    ensures tr[i].waitIntr ==> tr[i].ok == 0
    ensures Step(tr[i], e).Assertion? ==> e.Call? && e.chunks == 0
  {
    BehavioursKeep(tr, es, i);
    StepKeeps(tr[i], e);
  }

  /** No completion is lost: whoever sleeps is woken by the next interrupt, and then finds the value at 1. */
  lemma SleeperIsWoken(tr: seq<Sys>, es: seq<Event>, i: nat, t: Task)
    requires Behaviour(tr, es) && i < |tr| && PcOf(tr[i], t).Asleep?
    ensures var r := Step(tr[i], Interrupt);
            && r.Next? && PcOf(r.sys, t) == Down(PcOf(tr[i], t).kind, PcOf(tr[i], t).left)
            && Step(r.sys, Run(t)).Next? && Step(r.sys, Run(t)).sys.consumed == tr[i].consumed + 1
  {
    BehavioursKeep(tr, es, i);
    InterruptKeeps(tr[i]);
  }

  // ---------------------------------------------------------------------------
  // What a call does
  // ---------------------------------------------------------------------------

  /** What a statement does to the drive, the semaphore or the buffer, for the command with `left` still to send. */
  datatype Action = Began(left: nat) | Sent(left: nat) | Consumed(left: nat) | Polled(left: nat) | Moved(left: nat)

  /** What task t does when e happens, by the statement it is at. */
  function Did(sys: Sys, e: Event, t: Task): seq<Action>
  {
    if e != Run(t) then []
    else
      match PcOf(sys, t)
      case SetWait(_, left) => [Began(left)]
      case Command(_, left) => [Sent(left)]
      case Down(_, left) => if sys.ok > 0 then [Consumed(left)] else []
      case Poll(_, left) => [Polled(left)]
      case Data(_, left) => [Moved(left)]
      case _ => []
  }

  /**
    One command. A read takes the completion and polls before it moves its data; a write moves its data
    before it takes the completion.
   */
  function Round(kind: Kind, left: nat): (r: seq<Action>)
  {
    match kind
    case Read => [Began(left), Sent(left), Consumed(left), Polled(left), Moved(left)]
    case Write => [Began(left), Sent(left), Polled(left), Moved(left), Consumed(left)]
  }

  function Rounds(kind: Kind, left: nat): seq<Action>
  {
    if left == 0 then [] else Round(kind, left) + Rounds(kind, left - 1)
  }

  /** How far into its round a place is. */
  function Place(pc: Pc): nat
  {
    match pc
    case Command(_, _) => 1
    case Down(kind, _) => if kind.Read? then 2 else 4
    case Asleep(kind, _) => if kind.Read? then 2 else 4
    case Poll(kind, _) => if kind.Read? then 3 else 2
    case Data(kind, _) => if kind.Read? then 4 else 3
    case _ => 0
  }

  /** What is still to be done. */
  function Todo(pc: Pc): seq<Action>
  {
    if pc.Outside? || pc.Unlocking? then []
    else if pc.Locking? || pc.Looping? || pc.left == 0 then Rounds(pc.kind, pc.left)
    else Round(pc.kind, pc.left)[Place(pc)..] + Rounds(pc.kind, pc.left - 1)
  }

  /** Every command is begun and sent, its completion taken, the drive polled and the data moved, once each. */
  lemma {:induction false} EachOnce(kind: Kind, n: nat, rounds: seq<Action>, a: Action)
    requires rounds == Rounds(kind, n)
    ensures multiset(rounds)[a] == if 0 < a.left <= n then 1 else 0
    decreases n
  {
    if n > 0 {
      var first, rest := Round(kind, n), Rounds(kind, n - 1);
      OnceARound(kind, n, first, a);
      EachOnce(kind, n - 1, rest, a);
      assert rounds == first + rest;
    }
  }

  lemma OnceARound(kind: Kind, left: nat, round: seq<Action>, a: Action)
    requires round == Round(kind, left)
    ensures multiset(round)[a] == if a.left == left then 1 else 0
  {
    if kind == Read {
      assert multiset(round) == multiset{Began(left), Sent(left), Consumed(left), Polled(left), Moved(left)};
    } else {
      assert multiset(round) == multiset{Began(left), Sent(left), Polled(left), Moved(left), Consumed(left)};
    }
  }

  /** Whatever happens, what a task has to do gets shorter by what it does, at the front. */
  lemma TodoShrinks(sys: Sys, e: Event, t: Task, sys': Sys)
    requires Inv(sys) && Step(sys, e) == Next(sys') && !PcOf(sys, t).Outside?
    ensures Todo(PcOf(sys, t)) == Did(sys, e, t) + Todo(PcOf(sys', t))
  {
    if e == Run(t) {
      OwnStep(sys, t, sys');
    } else {
      OthersStep(sys, e, t, sys');
    }
  }

  /** Another task's step, or an interrupt, at most wakes it. */
  lemma OthersStep(sys: Sys, e: Event, t: Task, sys': Sys)
    requires Inv(sys) && Step(sys, e) == Next(sys') && !PcOf(sys, t).Outside? && e != Run(t)
    ensures PcOf(sys', t) == PcOf(sys, t) || (PcOf(sys, t).Asleep? && PcOf(sys', t) == Down(PcOf(sys, t).kind, PcOf(sys, t).left))
  {
  }

  lemma OwnStep(sys: Sys, t: Task, sys': Sys)
    requires Inv(sys) && RunStep(sys, t) == Next(sys') && !PcOf(sys, t).Outside?
    ensures Todo(PcOf(sys, t)) == Did(sys, Run(t), t) + Todo(PcOf(sys', t))
  {
    var pc, pc' := PcOf(sys, t), PcOf(sys', t);
    assert t in sys.pc && HasOne(sys.pc[t]);
    if pc.Locking? || pc.Unlocking? || pc.Looping? {
      NothingDone(pc, pc');
    } else if pc.Down? && sys.ok == 0 {
      NothingDone(pc, pc');
    } else {
      OneDone(pc, pc', Did(sys, Run(t), t));
    }
  }

  lemma NothingDone(pc: Pc, pc': Pc)
    requires match pc
             case Locking(kind, left) => pc' == Looping(kind, left)
             case Looping(kind, left) => pc' == if left > 0 then SetWait(kind, left) else Unlocking
             case Down(kind, left) => pc' == Asleep(kind, left)
             case Unlocking => pc' == Outside
             case _ => false
    ensures Todo(pc) == [] + Todo(pc')
  {
    if pc.Looping? && pc.left > 0 {
      assert Round(pc.kind, pc.left)[0..] == Round(pc.kind, pc.left);
    }
  }

  /** From one place of a round to the next, or from the last to the loop test. */
  lemma OneDone(pc: Pc, pc': Pc, did: seq<Action>)
    requires pc.SetWait? || pc.Command? || pc.Down? || pc.Poll? || pc.Data?
    requires pc.left > 0 && did == [Round(pc.kind, pc.left)[Place(pc)]]
    requires if Place(pc) == 4 then pc' == Looping(pc.kind, pc.left - 1)
             else !pc'.Outside? && !pc'.Unlocking? && !pc'.Locking? && !pc'.Looping?
                  && pc'.kind == pc.kind && pc'.left == pc.left && Place(pc') == Place(pc) + 1
    ensures Todo(pc) == did + Todo(pc')
  {
    TodoIs(pc);
    if Place(pc) < 4 { TodoIs(pc'); }
    Cut(Round(pc.kind, pc.left), Place(pc), Rounds(pc.kind, pc.left - 1));
  }

  lemma TodoIs(pc: Pc)
    requires !pc.Outside? && !pc.Unlocking? && !pc.Locking? && !pc.Looping? && pc.left > 0
    ensures Place(pc) <= 4 && Todo(pc) == Round(pc.kind, pc.left)[Place(pc)..] + Rounds(pc.kind, pc.left - 1)
  {
  }

  lemma Cut(r: seq<Action>, p: nat, rest: seq<Action>)
    requires p < |r|
    ensures r[p..] + rest == [r[p]] + (r[p + 1..] + rest)
    ensures p + 1 == |r| ==> r[p + 1..] + rest == rest
  {
  }

  /** What task t does between two states of a run. */
  function Log(tr: seq<Sys>, es: seq<Event>, t: Task, i: nat, j: nat): seq<Action>
    requires |tr| == |es| + 1 && i <= j < |tr|
  {
    if i == j then [] else Log(tr, es, t, i, j - 1) + Did(tr[j - 1], es[j - 1], t)
  }

  /** During a call, what was done and what is to be done make up the whole. */
  lemma {:induction false} DoneAndTodo(tr: seq<Sys>, es: seq<Event>, t: Task, i: nat, j: nat, log: seq<Action>)
    requires Behaviour(tr, es) && i <= j < |tr| && forall m :: i <= m < j ==> !PcOf(tr[m], t).Outside?
    requires log == Log(tr, es, t, i, j)
    ensures Todo(PcOf(tr[i], t)) == log + Todo(PcOf(tr[j], t))
    decreases j
  {
    if i < j {
      var before := Log(tr, es, t, i, j - 1);
      DoneAndTodo(tr, es, t, i, j - 1, before);
      StepShrinks(tr, es, t, j);
      assert log == before + Did(tr[j - 1], es[j - 1], t);
      Regroup(before, Did(tr[j - 1], es[j - 1], t), Todo(PcOf(tr[j], t)));
    }
  }

  lemma StepShrinks(tr: seq<Sys>, es: seq<Event>, t: Task, j: nat)
    requires Behaviour(tr, es) && 0 < j < |tr| && !PcOf(tr[j - 1], t).Outside?
    ensures Todo(PcOf(tr[j - 1], t)) == Did(tr[j - 1], es[j - 1], t) + Todo(PcOf(tr[j], t))
  {
    BehavioursKeep(tr, es, j - 1);
    assert Step(tr[j - 1], es[j - 1]) == Next(tr[j]);
    TodoShrinks(tr[j - 1], es[j - 1], t, tr[j]);
  }

  lemma Regroup(a: seq<Action>, b: seq<Action>, c: seq<Action>)
    ensures a + (b + c) == (a + b) + c
  {
  }

  /**
    A call of ide_read or ide_write with n commands to send, from its entry to its return in any run, does
    exactly n rounds, one after the other: n commands begun and sent, n completions taken, n chunks moved, each
    in its place.
   */
  lemma CallDoesItsRounds(tr: seq<Sys>, es: seq<Event>, t: Task, i: nat, j: nat, kind: Kind, n: nat)
    requires Behaviour(tr, es) && i + 1 < j < |tr| && es[i] == Call(t, kind, n)
    requires PcOf(tr[j], t).Outside? && forall m :: i < m < j ==> !PcOf(tr[m], t).Outside?
    ensures Log(tr, es, t, i + 1, j) == Rounds(kind, n)
    ensures forall a :: multiset(Log(tr, es, t, i + 1, j))[a] == if 0 < a.left <= n then 1 else 0
  {
    CallEnters(tr, es, t, i, kind, n);
    DoneAndTodo(tr, es, t, i + 1, j, Log(tr, es, t, i + 1, j));
    WholeCall(Log(tr, es, t, i + 1, j), PcOf(tr[i + 1], t), kind, n);
  }

  lemma CallEnters(tr: seq<Sys>, es: seq<Event>, t: Task, i: nat, kind: Kind, n: nat)
    requires Behaviour(tr, es) && i < |es| && es[i] == Call(t, kind, n)
    ensures PcOf(tr[i + 1], t) == Locking(kind, n)
  {
    assert Step(tr[i], es[i]) == Next(tr[i + 1]);
  }

  lemma WholeCall(log: seq<Action>, pc: Pc, kind: Kind, n: nat)
    requires Todo(pc) == log + [] && pc == Locking(kind, n)
    ensures log == Rounds(kind, n)
    ensures forall a :: multiset(log)[a] == if 0 < a.left <= n then 1 else 0
  {
    forall a ensures multiset(log)[a] == (if 0 < a.left <= n then 1 else 0) { EachOnce(kind, n, log, a); }
  }

  /** The rounds of different tasks do not mix: whoever does something holds the channel lock. */
  lemma OnlyTheHolderActs(tr: seq<Sys>, es: seq<Event>, i: nat, t: Task)
    requires Behaviour(tr, es) && i < |es| && Did(tr[i], es[i], t) != []
    ensures tr[i].lock == Some(t)
  {
    BehavioursKeep(tr, es, i);
  }
}
