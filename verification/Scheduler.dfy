/** proc.c over spinlock.c: any number of CPUs and process slots, interleaved at every acquisition and
    release of ptable.lock, at every slot a scan visits, and at the stores fork makes without the lock. */
module Scheduler {
  import opened Common

  datatype RunState = UNUSED | EMBRYO | SLEEPING | RUNNABLE | RUNNING | ZOMBIE

  /** What a process sleeps on: a process slot (wait) or some other kernel address. */
  datatype Chan = NoChan | OfProc(slot: nat) | Other(id: int)

  /** Why a kernel thread called sched(), or Newborn: it has never run. */
  datatype Why = Yielded | Slept | Waiting | Exited | Newborn

  /** Where a process's kernel thread is. */
  datatype Pc =
    | NoThread
    | Code(spins: nat)                 // any other code, holding this many other spin locks
      // the following hold ptable.lock
    | YieldCs
    | SleepCs(id: int)                 // still holds lk as well
    | WakeCs(chan: Chan, depth: nat)
    | KillCs(pid: nat, depth: nat)
    | AllocScan(i: nat)
    | PublishCs
    | ExitCs
    | ExitScan(i: nat)
    | WaitScan(i: nat, kids: bool)
    | Done(depth: nat)
    | Leaving(why: Why)                // state changed, about to swtch in sched()
    | Back(why: Why)                   // just resumed by the scheduler's swtch
    | Off(why: Why)                    // switched out
  {
    predicate OnCpu() { !NoThread? && !Off? }

    predicate Holds() { OnCpu() && !Code? }

    /** Spin locks held besides ptable.lock. */
    function Spins(): nat {
      match this
      case Code(k) => k
      case SleepCs(_) => 1
      case WakeCs(_, k) => k
      case KillCs(_, k) => k
      case Done(k) => k
      case _ => 0
    }

    /** The value pushcli/popcli leave in the CPU's ncli. */
    function Ncli(): nat { Spins() + if Holds() then 1 else 0 }

    /** Not inside fork. */
    predicate Forkless() {
      NoThread? || AllocScan? || ExitCs? || ExitScan? || WaitScan?
      || ((Leaving? || Back? || Off?) && (why == Waiting || why == Exited || why == Newborn))
    }
  }

  /** How far the process's call of fork has come; it can be preempted at any of these points. */
  datatype ForkAt =
    | NoFork
    | Embryo(child: nat)               // allocproc has returned
    | Forked(child: nat)               // np->parent is set

  datatype Proc = Proc(state: RunState, pid: nat, parent: Option<nat>, chan: Chan, killed: bool, pc: Pc, fork: ForkAt)

  /** The scheduler thread of a CPU: before acquire, scanning with the lock, or switched to a process. */
  datatype Loop = Outside | Scan(i: nat) | Gone(slot: nat)

  /** proc is the CPU's c->proc; ncli its nesting depth. */
  datatype Cpu = Cpu(proc: Option<nat>, ncli: nat, at: Loop)

  datatype Reap = Reap(pid: nat, waiter: nat)

  /** lock is the CPU recorded in ptable.lock. The last three fields are history: the pids that called
      exit, the pids wait returned with the pid of the caller, and who forked whom. */
  datatype State = State(
    lock: Option<nat>, cpus: seq<Cpu>, procs: seq<Proc>, nextpid: nat,
    exited: set<nat>, reaped: seq<Reap>, forker: map<nat, nat>)

  /** userinit takes the first slot and the first pid. */
  const INIT: nat := 0
  const INIT_PID: nat := 1

  datatype Job = YieldJob | SleepJob(id: int) | WakeJob(chan: Chan) | KillJob(pid: nat) | ForkJob | PublishJob
               | ExitJob | WaitJob

  /** One step of CPU c: its scheduler loop, or the process it runs. */
  datatype Act =
    | Sched            // the scheduler thread
    | Irq(chan: Chan)  // an interrupt handler on the idle scheduler thread calls wakeup
    | Spin | Unspin    // acquire or release some other spin lock
    | Call(job: Job)   // enter a routine of proc.c and acquire ptable.lock
    | Cont             // the next step of the routine it is in
    | Adopt            // fork: np->parent = curproc
    | Fail             // fork or allocproc runs out of memory

  // ---------------------------------------------------------------- steps

  function Running(s: State, c: nat): (p: nat)
    requires c < |s.cpus| && s.cpus[c].at.Gone?
  {
    s.cpus[c].at.slot
  }

  predicate Ready(s: State, c: nat) {
    c < |s.cpus| && s.cpus[c].at.Gone? && s.cpus[c].at.slot < |s.procs|
  }

  /** Where a routine may be called: sched() wants only ptable.lock held, the first process never exits,
      and a call of fork finishes before the next system call. */
  predicate MayCall(p: nat, x: Proc, job: Job)
    requires x.pc.Code?
  {
    match job
    case YieldJob => x.pc.spins == 0
    case SleepJob(_) => x.pc.spins == 1
    case ForkJob => x.pc.spins == 0 && x.fork.NoFork?
    case PublishJob => x.pc.spins == 0 && x.fork.Forked?
    case ExitJob => x.pc.spins == 0 && x.fork.NoFork? && p != INIT
    case WaitJob => x.pc.spins == 0 && x.fork.NoFork?
    case _ => true
  }

  predicate Enabled(s: State, c: nat, a: Act) {
    match a
    case Sched => c < |s.cpus| && (s.cpus[c].at.Scan? || (s.cpus[c].at.Outside? && s.lock.None?))
    case Irq(_) => c < |s.cpus| && s.cpus[c].at.Outside? && s.lock.None?
    case Spin => Ready(s, c) && s.procs[Running(s, c)].pc.Code?
    case Unspin => Ready(s, c) && s.procs[Running(s, c)].pc.Code? && s.procs[Running(s, c)].pc.spins > 0
    case Call(job) =>
      Ready(s, c) && s.procs[Running(s, c)].pc.Code? && s.lock.None?
      && MayCall(Running(s, c), s.procs[Running(s, c)], job)
    case Adopt => Ready(s, c) && s.procs[Running(s, c)].pc == Code(0) && s.procs[Running(s, c)].fork.Embryo?
    case Fail => Ready(s, c) && s.procs[Running(s, c)].pc == Code(0) && s.procs[Running(s, c)].fork.Embryo?
    case Cont => Ready(s, c) && s.procs[Running(s, c)].pc.Holds() && s.procs[Running(s, c)].pc != Back(Exited)
  }

  function Put(s: State, p: nat, x: Proc): State
    requires p < |s.procs|
  {
    s.(procs := s.procs[p := x])
  }

  function Depth(s: State, c: nat, d: int): State
    requires c < |s.cpus|
  {
    s.(cpus := s.cpus[c := s.cpus[c].(ncli := if s.cpus[c].ncli + d >= 0 then s.cpus[c].ncli + d else 0)])
  }

  function Acquire(s: State, c: nat): State
    requires c < |s.cpus|
  {
    Depth(s, c, 1).(lock := Some(c))
  }

  function Release(s: State, c: nat): State
    requires c < |s.cpus|
  {
    Depth(s, c, -1).(lock := None)
  }

  predicate SleepsOn(x: Proc, chan: Chan) { x.state == SLEEPING && x.chan == chan }

  function Woken(x: Proc, chan: Chan): Proc {
    if SleepsOn(x, chan) then x.(state := RUNNABLE) else x
  }

  /** wakeup1 */
  function Wake(procs: seq<Proc>, chan: Chan): (r: seq<Proc>)
    ensures |r| == |procs|
    ensures forall p | 0 <= p < |r| :: r[p] == Woken(procs[p], chan)
  {
    seq(|procs|, p requires 0 <= p < |procs| => Woken(procs[p], chan))
  }

  /** b is a, but for its state and its killed flag. */
  predicate Alike(a: Proc, b: Proc) {
    a.pid == b.pid && a.parent == b.parent && a.chan == b.chan && a.pc == b.pc && a.fork == b.fork
  }

  /** p is the first slot with this pid. */
  predicate FirstWith(procs: seq<Proc>, pid: nat, p: nat) {
    p < |procs| && procs[p].pid == pid && forall q | 0 <= q < p :: procs[q].pid != pid
  }

  /** Exactly the processes asleep on chan have become RUNNABLE, and nothing else has changed. */
  predicate WakeupDone(was: seq<Proc>, now: seq<Proc>, chan: Chan) {
    && |now| == |was|
    && forall p | 0 <= p < |was| ::
         && Alike(was[p], now[p]) && now[p].killed == was[p].killed
         && now[p].state == if was[p].state == SLEEPING && was[p].chan == chan then RUNNABLE else was[p].state
  }

  /** The first process with this pid is killed, and RUNNABLE if it was asleep; nothing else has changed. */
  predicate KillDone(was: seq<Proc>, now: seq<Proc>, pid: nat) {
    && |now| == |was|
    && forall p | 0 <= p < |was| ::
         && Alike(was[p], now[p]) && now[p].killed == (was[p].killed || FirstWith(was, pid, p))
         && now[p].state == if FirstWith(was, pid, p) && was[p].state == SLEEPING then RUNNABLE else was[p].state
  }

  /** The first slot with this pid, whatever its state, or the number of slots. */
  function SlotOf(procs: seq<Proc>, pid: nat, from: nat): (p: nat)
    requires from <= |procs|
    ensures from <= p <= |procs| && (p < |procs| ==> procs[p].pid == pid)
    ensures forall q | from <= q < p :: procs[q].pid != pid
    decreases |procs| - from
  {
    if from == |procs| || procs[from].pid == pid then from else SlotOf(procs, pid, from + 1)
  }

  function Killed(x: Proc): Proc {
    x.(killed := true, state := if x.state == SLEEPING then RUNNABLE else x.state)
  }

  function Kill(procs: seq<Proc>, pid: nat): (r: seq<Proc>)
    ensures |r| == |procs|
    ensures forall p | 0 <= p < |r| :: r[p] == procs[p] || r[p] == Killed(procs[p])
  {
    var p := SlotOf(procs, pid, 0);
    if p == |procs| then procs else procs[p := Killed(procs[p])]
  }

  function DoSched(s: State, c: nat): State
    requires Enabled(s, c, Sched)
  {
    match s.cpus[c].at
    case Outside => Acquire(s, c).(cpus := s.cpus[c := Cpu(None, s.cpus[c].ncli + 1, Scan(0))])
    case Scan(i) =>
      if i >= |s.procs| then
        Release(s, c).(cpus := s.cpus[c := Cpu(None, if s.cpus[c].ncli > 0 then s.cpus[c].ncli - 1 else 0, Outside)])
      else if s.procs[i].state != RUNNABLE then
        s.(cpus := s.cpus[c := s.cpus[c].(at := Scan(i + 1))])
      else
        Put(s, i, s.procs[i].(state := RUNNING, pc := Back(if s.procs[i].pc.Off? then s.procs[i].pc.why else Newborn)))
        .(cpus := s.cpus[c := s.cpus[c].(proc := Some(i), at := Gone(i))])
  }

  function Entry(spins: nat, job: Job): Pc {
    match job
    case YieldJob => YieldCs
    case SleepJob(id) => SleepCs(id)
    case WakeJob(chan) => WakeCs(chan, spins)
    case KillJob(pid) => KillCs(pid, spins)
    case ForkJob => AllocScan(0)
    case PublishJob => PublishCs
    case ExitJob => ExitCs
    case WaitJob => WaitScan(0, false)
  }

  /** exit: one turn of the loop that passes children to init, or the end of it. */
  function DoExit(s: State, p: nat, i: nat): State
    requires p < |s.procs| && INIT < |s.procs|
  {
    var x := s.procs[p];
    if i >= |s.procs| then
      Put(s, p, x.(state := ZOMBIE, pc := Leaving(Exited))).(exited := s.exited + {x.pid})
    else if s.procs[i].parent == Some(p) then
      var moved := s.procs[i := s.procs[i].(parent := Some(INIT))];
      var woken := if s.procs[i].state == ZOMBIE then Wake(moved, OfProc(INIT)) else moved;
      s.(procs := woken[p := woken[p].(pc := ExitScan(i + 1))])
    else
      Put(s, p, x.(pc := ExitScan(i + 1)))
  }

  /** wait: one turn of the scan, or what follows it. */
  function DoWait(s: State, p: nat, i: nat, kids: bool): State
    requires p < |s.procs|
  {
    var x := s.procs[p];
    if i >= |s.procs| then
      if !kids || x.killed then Put(s, p, x.(pc := Done(0)))
      else Put(s, p, x.(chan := OfProc(p), state := SLEEPING, pc := Leaving(Waiting)))
    else if s.procs[i].parent != Some(p) then Put(s, p, x.(pc := WaitScan(i + 1, kids)))
    else if s.procs[i].state != ZOMBIE then Put(s, p, x.(pc := WaitScan(i + 1, true)))
    else
      Put(Put(s, i, s.procs[i].(pid := 0, parent := None, killed := false, state := UNUSED, pc := NoThread)), p,
          x.(pc := Done(0)))
      .(reaped := s.reaped + [Reap(s.procs[i].pid, x.pid)])
  }

  /** allocproc: one turn of the scan, or its end. */
  function DoAlloc(s: State, p: nat, i: nat): State
    requires p < |s.procs|
  {
    var x := s.procs[p];
    if i >= |s.procs| then Put(s, p, x.(pc := Done(0)))
    else if s.procs[i].state == UNUSED then
      Put(Put(s, i, s.procs[i].(state := EMBRYO, pid := s.nextpid)), p, x.(pc := Done(0), fork := Embryo(i)))
      .(nextpid := s.nextpid + 1)
    else Put(s, p, x.(pc := AllocScan(i + 1)))
  }

  /** fork's last critical section. */
  function DoPublish(s: State, p: nat): State
    requires p < |s.procs|
  {
    var x := s.procs[p];
    if !x.fork.Forked? || x.fork.child >= |s.procs| then s
    else
      var np := x.fork.child;
      Put(Put(s, np, s.procs[np].(state := RUNNABLE, pc := Off(Newborn))), p, x.(pc := Done(0), fork := NoFork))
      .(forker := s.forker[s.procs[np].pid := x.pid])
  }

  /** sched's swtch to the scheduler, which goes on scanning after p. */
  function DoSwitch(s: State, c: nat, p: nat): State
    requires c < |s.cpus| && p < |s.procs| && s.procs[p].pc.Leaving?
  {
    Put(s, p, s.procs[p].(pc := Off(s.procs[p].pc.why))).(cpus :=
    s.cpus[c := s.cpus[c].(proc := None, at := Scan(p + 1))])
  }

  /** What a thread does when sched returns, or forkret. */
  function DoBack(s: State, c: nat, p: nat): State
    requires c < |s.cpus| && p < |s.procs| && s.procs[p].pc.Back?
  {
    var x := s.procs[p];
    match x.pc.why
    case Slept => Release(Put(s, p, x.(chan := NoChan, pc := Code(0))), c)
    case Waiting => Put(s, p, x.(chan := NoChan, pc := WaitScan(0, false)))
    case _ => Release(Put(s, p, x.(pc := Code(0))), c)
  }

  function DoYield(s: State, p: nat): State
    requires p < |s.procs|
  {
    Put(s, p, s.procs[p].(state := RUNNABLE, pc := Leaving(Yielded)))
  }

  /** sleep: release lk, then mark the process. */
  function DoSleep(s: State, c: nat, p: nat, id: int): State
    requires c < |s.cpus| && p < |s.procs|
  {
    Depth(Put(s, p, s.procs[p].(chan := Other(id), state := SLEEPING, pc := Leaving(Slept))), c, -1)
  }

  function DoWake(s: State, p: nat, chan: Chan, k: nat): State
    requires p < |s.procs|
  {
    s.(procs := Wake(s.procs, chan)[p := s.procs[p].(pc := Done(k))])
  }

  function DoKill(s: State, p: nat, pid: nat, k: nat): State
    requires p < |s.procs|
  {
    var killed := Kill(s.procs, pid);
    s.(procs := killed[p := killed[p].(pc := Done(k))])
  }

  /** exit: wakeup1(curproc->parent). */
  function DoExitWake(s: State, p: nat): State
    requires p < |s.procs|
  {
    var x := s.procs[p];
    var procs := if x.parent.Some? then Wake(s.procs, OfProc(x.parent.value)) else s.procs;
    s.(procs := procs[p := x.(pc := ExitScan(0))])
  }

  function DoRelease(s: State, c: nat, p: nat, k: nat): State
    requires c < |s.cpus| && p < |s.procs|
  {
    Release(Put(s, p, s.procs[p].(pc := Code(k))), c)
  }

  function DoCont(s: State, c: nat): State
    requires Enabled(s, c, Cont) && INIT < |s.procs|
  {
    var p := Running(s, c);
    match s.procs[p].pc
    case YieldCs => DoYield(s, p)
    case SleepCs(id) => DoSleep(s, c, p, id)
    case WakeCs(chan, k) => DoWake(s, p, chan, k)
    case KillCs(pid, k) => DoKill(s, p, pid, k)
    case AllocScan(i) => DoAlloc(s, p, i)
    case PublishCs => DoPublish(s, p)
    case ExitCs => DoExitWake(s, p)
    case ExitScan(i) => DoExit(s, p, i)
    case WaitScan(i, kids) => DoWait(s, p, i, kids)
    case Done(k) => DoRelease(s, c, p, k)
    case Leaving(_) => DoSwitch(s, c, p)
    case Back(_) => DoBack(s, c, p)
  }

  /** fork: np->parent = curproc, without the lock. */
  function DoAdopt(s: State, p: nat): State
    requires p < |s.procs| && s.procs[p].fork.Embryo?
  {
    var np := s.procs[p].fork.child;
    if np >= |s.procs| then s
    else Put(Put(s, np, s.procs[np].(parent := Some(p))), p, s.procs[p].(fork := Forked(np)))
  }

  /** fork or allocproc: np->state = UNUSED, without the lock. */
  function DoFail(s: State, p: nat): State
    requires p < |s.procs| && s.procs[p].fork.Embryo?
  {
    var np := s.procs[p].fork.child;
    if np >= |s.procs| then s
    else Put(Put(s, np, s.procs[np].(state := UNUSED)), p, s.procs[p].(fork := NoFork))
  }

  function DoSpin(s: State, c: nat, d: int): State
    requires Ready(s, c) && s.procs[Running(s, c)].pc.Code? && s.procs[Running(s, c)].pc.spins + d >= 0
  {
    var p := Running(s, c);
    Depth(Put(s, p, s.procs[p].(pc := Code(s.procs[p].pc.spins + d))), c, d)
  }

  function DoCall(s: State, c: nat, job: Job): State
    requires Enabled(s, c, Call(job))
  {
    var p := Running(s, c);
    Acquire(Put(s, p, s.procs[p].(pc := Entry(s.procs[p].pc.spins, job))), c)
  }

  function Do(s: State, c: nat, a: Act): (r: State)
    requires Enabled(s, c, a) && INIT < |s.procs|
  {
    match a
    case Sched => DoSched(s, c)
    case Irq(chan) => s.(procs := Wake(s.procs, chan))
    case Cont => DoCont(s, c)
    case Spin => DoSpin(s, c, 1)
    case Unspin => DoSpin(s, c, -1)
    case Call(job) => DoCall(s, c, job)
    case Adopt => DoAdopt(s, Running(s, c))
    case Fail => DoFail(s, Running(s, c))
  }

  datatype Move = Move(cpu: nat, act: Act)

  predicate Possible(s: State, moves: seq<Move>)
    requires INIT < |s.procs|
    decreases |moves|
  {
    moves == [] ||
    (Enabled(s, moves[0].cpu, moves[0].act) &&
     var r := Do(s, moves[0].cpu, moves[0].act);
     INIT < |r.procs| && Possible(r, moves[1..]))
  }

  function Exec(s: State, moves: seq<Move>): (r: State)
    requires INIT < |s.procs| && Possible(s, moves)
    decreases |moves|
  {
    if moves == [] then s else Exec(Do(s, moves[0].cpu, moves[0].act), moves[1..])
  }

  /** After userinit: the first process is runnable, every CPU is about to enter its scheduler loop. */
  function Start(ncpu: nat, nproc: nat): (s: State)
    requires INIT < nproc
  {
    var free := Proc(UNUSED, 0, None, NoChan, false, NoThread, NoFork);
    State(None, seq(ncpu, _ => Cpu(None, 0, Outside)),
          seq(nproc, p => if p == INIT then free.(state := RUNNABLE, pid := INIT_PID, pc := Off(Newborn)) else free),
          INIT_PID + 1, {}, [], map[])
  }

  // ---------------------------------------------------------------- the invariant

  /** What ptable.lock, ncli and c->proc say about one CPU. */
  ghost predicate CpuOk(s: State, c: nat)
    requires c < |s.cpus|
  {
    var u := s.cpus[c];
    match u.at
    case Outside => u.proc.None? && u.ncli == 0 && s.lock != Some(c)
    case Scan(i) => u.proc.None? && u.ncli == 1 && s.lock == Some(c)
    case Gone(p) =>
      && u.proc == Some(p) && p < |s.procs| && s.procs[p].pc.OnCpu()
      && u.ncli == s.procs[p].pc.Ncli()
      && (s.lock == Some(c) <==> s.procs[p].pc.Holds())
  }

  ghost predicate Placed(s: State, p: nat) {
    exists c | 0 <= c < |s.cpus| :: s.cpus[c].at == Gone(p)
  }

  ghost predicate Apart(s: State) {
    forall c, d | 0 <= c < d < |s.cpus| && s.cpus[c].at.Gone? :: s.cpus[c].at != s.cpus[d].at
  }

  ghost predicate Cpus(s: State) {
    && (s.lock.Some? ==> s.lock.value < |s.cpus|)
    && (forall c | 0 <= c < |s.cpus| :: CpuOk(s, c))
    && Apart(s)
    && (forall p {:trigger Placed(s, p)} | 0 <= p < |s.procs| && s.procs[p].pc.OnCpu() :: Placed(s, p))
  }

  /** How a slot's state, channel, thread and call of fork go together. */
  predicate SlotOk(p: nat, x: Proc) {
    && (x.pc.Forkless() ==> x.fork.NoFork?)
    && (x.pc.PublishCs? ==> x.fork.Forked?)
    && (x.pc.ExitCs? || x.pc.ExitScan? ==> p != INIT)
    && match x.state
       case UNUSED => x.pc.NoThread? && x.parent.None?
       case EMBRYO => x.pc.NoThread?
       case RUNNABLE => (x.pc.Off? || x.pc.Leaving?) && x.pc.why != Exited
       case RUNNING => x.pc.OnCpu() && !x.pc.Leaving? && x.pc != Back(Exited)
       case ZOMBIE => x.pc == Leaving(Exited) || x.pc == Off(Exited)
       case SLEEPING =>
         || ((x.pc == Leaving(Slept) || x.pc == Off(Slept)) && x.chan.Other?)
         || ((x.pc == Leaving(Waiting) || x.pc == Off(Waiting)) && x.chan == OfProc(p))
  }

  ghost predicate Slots(s: State) {
    forall p | 0 <= p < |s.procs| :: SlotOk(p, s.procs[p])
  }

  predicate Alive(x: Proc) { x.state.SLEEPING? || x.state.RUNNABLE? || x.state.RUNNING? }

  predicate Started(x: Proc) { Alive(x) || x.state.ZOMBIE? }

  predicate Childless(s: State, p: nat, i: nat) {
    forall j | 0 <= j < |s.procs| && j < i :: s.procs[j].parent != Some(p)
  }

  predicate NoZombieChild(s: State, p: nat, i: nat) {
    forall j | 0 <= j < |s.procs| && j < i && s.procs[j].parent == Some(p) :: s.procs[j].state != ZOMBIE
  }

  /** Nobody whose child p is sleeps in wait. */
  predicate ParentAwake(s: State, p: nat)
    requires p < |s.procs|
  {
    forall q | 0 <= q < |s.procs| && s.procs[p].parent == Some(q) :: !SleepsOn(s.procs[q], OfProc(q))
  }

  /** What a scan has established so far. */
  ghost predicate JobOk(s: State, p: nat)
    requires p < |s.procs|
  {
    match s.procs[p].pc
    case ExitScan(i) => Childless(s, p, i) && ParentAwake(s, p)
    case WaitScan(i, kids) => NoZombieChild(s, p, i) && kids == !Childless(s, p, i)
    case _ => true
  }

  /** The slot a call of fork has taken is still an embryo nobody else knows. */
  ghost predicate ForkOk(s: State, p: nat)
    requires p < |s.procs|
  {
    match s.procs[p].fork
    case NoFork => true
    case Embryo(np) => np < |s.procs| && s.procs[np].state == EMBRYO && s.procs[np].parent.None?
    case Forked(np) => np < |s.procs| && s.procs[np].state == EMBRYO && s.procs[np].parent == Some(p)
  }

  ghost predicate Jobs(s: State) {
    forall p | 0 <= p < |s.procs| :: JobOk(s, p)
  }

  ghost predicate Forks(s: State) {
    && (forall p | 0 <= p < |s.procs| :: ForkOk(s, p))
    && (forall p, q | 0 <= p < q < |s.procs| && !s.procs[p].fork.NoFork? && !s.procs[q].fork.NoFork? ::
          s.procs[p].fork.child != s.procs[q].fork.child)
  }

  /** Parents are alive, so every zombie has somebody to reap it, and none of them sleeps through it. */
  ghost predicate Family(s: State) {
    && INIT < |s.procs| && Alive(s.procs[INIT]) && s.procs[INIT].parent.None? && s.procs[INIT].pid == INIT_PID
    && (forall p | 0 <= p < |s.procs| && p != INIT && Started(s.procs[p]) :: s.procs[p].parent.Some?)
    && (forall p, q {:trigger ParentOk(s, p, q)} | 0 <= p < |s.procs| && s.procs[p].parent == Some(q) ::
          ParentOk(s, p, q))
  }

  ghost predicate ParentOk(s: State, p: nat, q: nat)
    requires p < |s.procs|
  {
    && q < |s.procs| && q != p && Alive(s.procs[q])
    && (s.procs[p].state == ZOMBIE ==> !SleepsOn(s.procs[q], OfProc(q)))
    && (Started(s.procs[p]) ==> s.procs[p].pid in s.forker && (q == INIT || s.forker[s.procs[p].pid] == s.procs[q].pid))
  }

  ghost predicate Pids(s: State) {
    && (forall p | 0 <= p < |s.procs| :: s.procs[p].pid < s.nextpid)
    && (forall p | 0 <= p < |s.procs| && s.procs[p].state != UNUSED :: s.procs[p].pid > 0)
    && (forall p, q | 0 <= p < q < |s.procs| && s.procs[p].pid > 0 :: s.procs[p].pid != s.procs[q].pid)
    && s.nextpid > 0
  }

  predicate Reaped(s: State, pid: nat) {
    exists i | 0 <= i < |s.reaped| :: s.reaped[i].pid == pid
  }

  predicate ZombieWith(s: State, pid: nat) {
    exists p | 0 <= p < |s.procs| :: s.procs[p].state == ZOMBIE && s.procs[p].pid == pid
  }

  ghost predicate History(s: State) {
    && (forall i, j | 0 <= i < j < |s.reaped| :: s.reaped[i].pid != s.reaped[j].pid)
    && (forall i | 0 <= i < |s.reaped| :: ReapOk(s, s.reaped[i]))
    && (forall i, p | 0 <= i < |s.reaped| && 0 <= p < |s.procs| :: s.reaped[i].pid != s.procs[p].pid)
    && (forall pid | pid in s.exited :: Reaped(s, pid) || ZombieWith(s, pid))
    && (forall p | 0 <= p < |s.procs| && s.procs[p].state == ZOMBIE :: s.procs[p].pid in s.exited)
  }

  ghost predicate ReapOk(s: State, r: Reap) {
    && 0 < r.pid < s.nextpid && r.pid in s.exited && r.pid in s.forker
    && (r.waiter == INIT_PID || s.forker[r.pid] == r.waiter)
  }

  ghost predicate Lives(s: State) {
    Family(s) && Pids(s) && History(s)
  }

  ghost predicate Inv(s: State) {
    Cpus(s) && Slots(s) && Jobs(s) && Forks(s) && Lives(s)
  }

  // ---------------------------------------------------------------- CPUs, lock and ncli

  /** A step of the process p that CPU c runs, which stays on that CPU. */
  ghost predicate Stays(s: State, r: State, c: nat, p: nat) {
    && Ready(s, c) && Running(s, c) == p
    && |r.cpus| == |s.cpus| && |r.procs| == |s.procs|
    && (forall d | 0 <= d < |s.cpus| && d != c :: r.cpus[d] == s.cpus[d])
    && r.cpus[c].at == s.cpus[c].at && r.cpus[c].proc == s.cpus[c].proc
    && r.procs[p].pc.OnCpu() && r.cpus[c].ncli == r.procs[p].pc.Ncli()
    && (forall q | 0 <= q < |s.procs| && q != p :: SamePc(s.procs[q].pc, r.procs[q].pc))
    && (if r.procs[p].pc.Holds() then r.lock == Some(c) && (s.lock == Some(c) || s.lock == None)
        else if s.lock == Some(c) then r.lock == None else r.lock == s.lock)
  }

  predicate SamePc(a: Pc, b: Pc) { a == b || (!a.OnCpu() && !b.OnCpu()) }

  lemma StaysKeepsCpus(s: State, r: State, c: nat, p: nat)
    requires Cpus(s) && Stays(s, r, c, p)
    ensures Cpus(r)
  {
    forall d | 0 <= d < |r.cpus| ensures CpuOk(r, d) {
      assert CpuOk(s, d) && CpuOk(s, c);
      if d != c && s.cpus[d].at.Gone? {
        assert s.cpus[d].at != s.cpus[c].at;
      }
    }
    forall q | 0 <= q < |r.procs| && r.procs[q].pc.OnCpu() ensures Placed(r, q) {
      if q == p {
        assert r.cpus[c].at == Gone(p);
      } else {
        assert Placed(s, q);
        var d :| 0 <= d < |s.cpus| && s.cpus[d].at == Gone(q);
        assert r.cpus[d].at == Gone(q);
      }
    }
  }

  /** The lock has one holder: the thread inside a critical section runs on the recorded CPU. */
  lemma HolderHasLock(s: State, q: nat)
    requires Cpus(s) && q < |s.procs| && s.procs[q].pc.Holds()
    ensures s.lock.Some? && s.lock.value < |s.cpus| && s.cpus[s.lock.value].at == Gone(q)
  {
    assert Placed(s, q);
    var d :| 0 <= d < |s.cpus| && s.cpus[d].at == Gone(q);
    assert CpuOk(s, d);
  }

  lemma OneHolder(s: State, p: nat, q: nat)
    requires Cpus(s) && p < |s.procs| && q < |s.procs| && s.procs[p].pc.Holds() && s.procs[q].pc.Holds()
    ensures p == q
  {
    HolderHasLock(s, p);
    HolderHasLock(s, q);
  }

  // ---------------------------------------------------------------- steps that start and end no life

  function Class(st: RunState): int {
    match st case UNUSED => 0 case EMBRYO => 1 case ZOMBIE => 3 case _ => 2
  }

  predicate CalmSlot(q: nat, a: Proc, b: Proc) {
    && a.pid == b.pid && a.parent == b.parent && Class(a.state) == Class(b.state) && a.fork == b.fork
    && (SleepsOn(b, OfProc(q)) ==> SleepsOn(a, OfProc(q)))
  }

  ghost predicate Calm(s: State, r: State, p: nat) {
    && |r.procs| == |s.procs| && r.nextpid == s.nextpid && r.exited == s.exited && r.reaped == s.reaped
    && r.forker == s.forker
    && (forall q | 0 <= q < |s.procs| :: CalmSlot(q, s.procs[q], r.procs[q]))
    && (forall q | 0 <= q < |s.procs| && q != p :: r.procs[q].pc == s.procs[q].pc)
  }

  /** A step in which nobody exits and nobody is reaped. */
  lemma QuietHistory(s: State, r: State)
    requires History(s) && |r.procs| == |s.procs| && r.reaped == s.reaped && r.exited == s.exited
             && r.nextpid >= s.nextpid
    requires forall q | 0 <= q < |s.procs| :: r.procs[q].pid == s.procs[q].pid || r.procs[q].pid >= s.nextpid
    requires forall q | 0 <= q < |s.procs| && (s.procs[q].state == ZOMBIE || r.procs[q].state == ZOMBIE) ::
               s.procs[q].state == r.procs[q].state && s.procs[q].pid == r.procs[q].pid
    requires forall k | 0 <= k < |s.reaped| && s.reaped[k].pid in s.forker ::
               s.reaped[k].pid in r.forker && r.forker[s.reaped[k].pid] == s.forker[s.reaped[k].pid]
    ensures History(r)
  {
    forall k | 0 <= k < |r.reaped| ensures ReapOk(r, r.reaped[k]) {
      assert ReapOk(s, s.reaped[k]);
    }
    forall pid | pid in r.exited ensures Reaped(r, pid) || ZombieWith(r, pid) {
      if ZombieWith(s, pid) {
        var q :| 0 <= q < |s.procs| && s.procs[q].state == ZOMBIE && s.procs[q].pid == pid;
        assert r.procs[q].state == ZOMBIE;
      } else {
        var k :| 0 <= k < |s.reaped| && s.reaped[k].pid == pid;
        assert r.reaped[k].pid == pid;
      }
    }
    forall k, q | 0 <= k < |r.reaped| && 0 <= q < |r.procs| ensures r.reaped[k].pid != r.procs[q].pid {
      assert ReapOk(s, s.reaped[k]) && s.reaped[k].pid != s.procs[q].pid;
    }
  }

  /** A step in which no slot gets a pid. */
  lemma QuietPids(s: State, r: State)
    requires Pids(s) && |r.procs| == |s.procs| && r.nextpid == s.nextpid
    requires forall q | 0 <= q < |s.procs| ::
               r.procs[q].pid == s.procs[q].pid && (r.procs[q].state != UNUSED ==> s.procs[q].state != UNUSED)
    ensures Pids(r)
  {
  }

  lemma CalmKeepsFamily(s: State, r: State, p: nat)
    requires Family(s) && Calm(s, r, p)
    ensures Family(r)
  {
    assert CalmSlot(INIT, s.procs[INIT], r.procs[INIT]);
    forall q, x | 0 <= q < |r.procs| && r.procs[q].parent == Some(x) ensures ParentOk(r, q, x) {
      assert CalmSlot(q, s.procs[q], r.procs[q]);
      assert ParentOk(s, q, x);
      assert CalmSlot(x, s.procs[x], r.procs[x]);
    }
  }

  lemma CalmIsQuiet(s: State, r: State, p: nat)
    requires Calm(s, r, p)
    ensures forall q | 0 <= q < |s.procs| ::
              r.procs[q].pid == s.procs[q].pid && (r.procs[q].state != UNUSED ==> s.procs[q].state != UNUSED)
    ensures forall q | 0 <= q < |s.procs| :: s.procs[q].state == ZOMBIE <==> r.procs[q].state == ZOMBIE
    ensures |r.procs| == |s.procs| && r.nextpid == s.nextpid && r.exited == s.exited && r.reaped == s.reaped
            && r.forker == s.forker
  {
    assert forall q | 0 <= q < |s.procs| :: CalmSlot(q, s.procs[q], r.procs[q]);
  }

  lemma CalmKeepsForks(s: State, r: State, p: nat)
    requires Forks(s) && Calm(s, r, p)
    ensures Forks(r)
  {
    assert forall q | 0 <= q < |s.procs| :: CalmSlot(q, s.procs[q], r.procs[q]);
    forall q | 0 <= q < |r.procs| ensures ForkOk(r, q) {
      assert ForkOk(s, q);
    }
  }

  lemma ChildlessFrame(s: State, r: State, p: nat, i: nat)
    requires |r.procs| == |s.procs| && forall j | 0 <= j < |s.procs| :: r.procs[j].parent == s.procs[j].parent
    ensures Childless(r, p, i) == Childless(s, p, i)
    ensures i < |s.procs| ==> Childless(r, p, i + 1) == (Childless(s, p, i) && s.procs[i].parent != Some(p))
  {
    if !Childless(s, p, i) {
      var j :| 0 <= j < |s.procs| && j < i && s.procs[j].parent == Some(p);
      assert r.procs[j].parent == Some(p);
    }
    if i < |s.procs| && s.procs[i].parent == Some(p) {
      assert r.procs[i].parent == Some(p);
    }
  }

  lemma CalmKeepsJobs(s: State, r: State, p: nat)
    requires Jobs(s) && Calm(s, r, p) && (p < |s.procs| ==> JobOk(r, p))
    ensures Jobs(r)
  {
    assert forall q | 0 <= q < |s.procs| :: CalmSlot(q, s.procs[q], r.procs[q]);
    forall q | 0 <= q < |r.procs| ensures JobOk(r, q) {
      if q != p {
        assert JobOk(s, q);
        match r.procs[q].pc
        case WaitScan(i, kids) => ChildlessFrame(s, r, q, i);
        case _ =>
      }
    }
  }

  lemma CalmKeepsInv(s: State, r: State, p: nat)
    requires Inv(s) && Cpus(r) && Slots(r) && Calm(s, r, p) && (p < |s.procs| ==> JobOk(r, p))
    ensures Inv(r)
  {
    hide Cpus, Slots, Jobs, Forks, Family, Pids, History, JobOk, Calm;
    CalmKeepsJobs(s, r, p);
    CalmKeepsForks(s, r, p);
    CalmKeepsFamily(s, r, p);
    CalmIsQuiet(s, r, p);
    QuietPids(s, r);
    QuietHistory(s, r);
  }

  // ---------------------------------------------------------------- the scheduler thread

  lemma ScheduleCpus(s: State, c: nat)
    requires Cpus(s) && Slots(s) && Enabled(s, c, Sched)
    ensures Cpus(DoSched(s, c))
  {
    var r := DoSched(s, c);
    assert CpuOk(s, c);
    var chosen := s.cpus[c].at.Scan? && s.cpus[c].at.i < |s.procs| && s.procs[s.cpus[c].at.i].state == RUNNABLE;
    if chosen {
      var i := s.cpus[c].at.i;
      assert SlotOk(i, s.procs[i]);
      if s.procs[i].pc.Holds() { HolderHasLock(s, i); }
      assert !s.procs[i].pc.OnCpu();
    }
    forall d | 0 <= d < |r.cpus| ensures CpuOk(r, d) {
      assert CpuOk(s, d);
    }
    forall q | 0 <= q < |r.procs| && r.procs[q].pc.OnCpu() ensures Placed(r, q) {
      if r.cpus[c].at == Gone(q) {
      } else {
        assert Placed(s, q);
        var d :| 0 <= d < |s.cpus| && s.cpus[d].at == Gone(q);
        assert r.cpus[d].at == Gone(q);
      }
    }
    forall d, e | 0 <= d < e < |r.cpus| && r.cpus[d].at.Gone? ensures r.cpus[d].at != r.cpus[e].at {
      assert CpuOk(s, d) && CpuOk(s, e);
    }
  }

  lemma ScheduleKeeps(s: State, c: nat)
    requires Inv(s) && Enabled(s, c, Sched)
    ensures Inv(DoSched(s, c))
  {
    hide Cpus, Family, Pids, History, Forks, Jobs;
    var r := DoSched(s, c);
    ScheduleCpus(s, c);
    var p := if s.cpus[c].at.Scan? then s.cpus[c].at.i else |s.procs|;
    if p < |s.procs| { ScheduledJob(s, c, p); }
    CalmKeepsInv(s, r, p);
  }

  lemma ScheduledJob(s: State, c: nat, p: nat)
    requires Inv(s) && Enabled(s, c, Sched) && s.cpus[c].at == Scan(p) && p < |s.procs|
    ensures SlotOk(p, s.procs[p]) && JobOk(s, p) && JobOk(DoSched(s, c), p)
    ensures s.procs[p].state == RUNNABLE ==> !s.procs[p].pc.Holds()
  {
    hide Family, Pids, History, Forks;
    assert SlotOk(p, s.procs[p]) && JobOk(s, p);
    assert CpuOk(s, c);
    if s.procs[p].state == RUNNABLE && s.procs[p].pc.Holds() {
      HolderHasLock(s, p);
    }
  }

  /** sched(): the lock and ncli == 1 pass to the scheduler thread of the same CPU. */
  lemma SwitchKeeps(s: State, c: nat)
    requires Inv(s) && Ready(s, c) && s.procs[Running(s, c)].pc.Leaving?
    ensures Inv(DoSwitch(s, c, Running(s, c)))
  {
    hide Cpus, Family, Pids, History, Forks, Jobs, Slots;
    var p := Running(s, c);
    SwitchCpus(s, c);
    CalmKeepsInv(s, DoSwitch(s, c, p), p);
  }

  lemma SwitchCpus(s: State, c: nat)
    requires Inv(s) && Ready(s, c) && s.procs[Running(s, c)].pc.Leaving?
    ensures SlotOk(Running(s, c), s.procs[Running(s, c)])
    ensures Cpus(DoSwitch(s, c, Running(s, c))) && Slots(DoSwitch(s, c, Running(s, c)))
  {
    hide Family, Pids, History, Forks, Jobs;
    var p := Running(s, c);
    var r := DoSwitch(s, c, p);
    assert CpuOk(s, c) && SlotOk(p, s.procs[p]);
    forall d | 0 <= d < |r.cpus| ensures CpuOk(r, d) {
      assert CpuOk(s, d);
    }
    forall q | 0 <= q < |r.procs| && r.procs[q].pc.OnCpu() ensures Placed(r, q) {
      assert Placed(s, q);
      var d :| 0 <= d < |s.cpus| && s.cpus[d].at == Gone(q);
      assert r.cpus[d].at == Gone(q);
    }
  }

  // ---------------------------------------------------------------- calm steps of a process

  lemma StepKeeps(s: State, r: State, c: nat)
    requires Inv(s) && Ready(s, c)
    requires Stays(s, r, c, Running(s, c)) && Slots(r) && Calm(s, r, Running(s, c)) && JobOk(r, Running(s, c))
    ensures Inv(r)
  {
    hide Cpus, Slots, Jobs, Forks, Family, Pids, History, JobOk, Calm, Stays;
    StaysKeepsCpus(s, r, c, Running(s, c));
    CalmKeepsInv(s, r, Running(s, c));
  }

  /** What the invariant says about the process CPU c runs. */
  lemma At(s: State, c: nat)
    requires Inv(s) && Ready(s, c)
    ensures CpuOk(s, c) && SlotOk(Running(s, c), s.procs[Running(s, c)])
    ensures JobOk(s, Running(s, c)) && ForkOk(s, Running(s, c))
  {
  }

  /** The lock, ncli and history side of a step that makes the running process y. */
  predicate Solo(s: State, r: State, c: nat, y: Proc)
    requires Ready(s, c)
  {
    && r.procs == s.procs[Running(s, c) := y]
    && |r.cpus| == |s.cpus|
    && r.cpus == s.cpus[c := s.cpus[c].(ncli := y.pc.Ncli())]
    && r.lock == (if y.pc.Holds() then Some(c) else if s.lock == Some(c) then None else s.lock)
    && r.nextpid == s.nextpid && r.exited == s.exited && r.reaped == s.reaped && r.forker == s.forker
  }

  /** A step that changes only the running process. */
  lemma SoloKeeps(s: State, r: State, c: nat, y: Proc)
    requires Inv(s) && Ready(s, c) && Solo(s, r, c, y)
    requires y.pc.Holds() ==> s.procs[Running(s, c)].pc.Holds() || s.lock.None?
    requires y.pc.OnCpu() && SlotOk(Running(s, c), y) && CalmSlot(Running(s, c), s.procs[Running(s, c)], y)
    requires JobOk(r, Running(s, c))
    ensures Inv(r)
  {
    hide JobOk, Jobs, Forks, Lives, Cpus;
    At(s, c);
    StepKeeps(s, r, c);
  }

  lemma SpinKeeps(s: State, c: nat, d: int)
    requires Inv(s) && Ready(s, c) && s.procs[Running(s, c)].pc.Code? && s.procs[Running(s, c)].pc.spins + d >= 0
    ensures Inv(DoSpin(s, c, d))
  {
    hide Cpus, Slots, Jobs, Forks, Lives;
    At(s, c);
    var r := DoSpin(s, c, d);
    SoloKeeps(s, r, c, r.procs[Running(s, c)]);
  }

  lemma CallKeeps(s: State, c: nat, job: Job)
    requires Inv(s) && Enabled(s, c, Call(job))
    ensures Inv(DoCall(s, c, job))
  {
    hide Cpus, Slots, Jobs, Forks, Lives;
    At(s, c);
    var r := DoCall(s, c, job);
    assert JobOk(r, Running(s, c));
    hide JobOk;
    SoloKeeps(s, r, c, r.procs[Running(s, c)]);
  }

  lemma YieldKeeps(s: State, c: nat)
    requires Inv(s) && Ready(s, c) && s.procs[Running(s, c)].pc.YieldCs?
    ensures Inv(DoYield(s, Running(s, c)))
  {
    hide Cpus, Slots, Jobs, Forks, Lives;
    At(s, c);
    var r := DoYield(s, Running(s, c));
    SoloKeeps(s, r, c, r.procs[Running(s, c)]);
  }

  lemma SleepKeeps(s: State, c: nat, id: int)
    requires Inv(s) && Ready(s, c) && s.procs[Running(s, c)].pc == SleepCs(id)
    ensures Inv(DoSleep(s, c, Running(s, c), id))
  {
    hide Cpus, Slots, Jobs, Forks, Lives;
    At(s, c);
    var r := DoSleep(s, c, Running(s, c), id);
    SoloKeeps(s, r, c, r.procs[Running(s, c)]);
  }

  lemma ReleaseKeeps(s: State, c: nat, k: nat)
    requires Inv(s) && Ready(s, c) && s.procs[Running(s, c)].pc == Done(k)
    ensures Inv(DoRelease(s, c, Running(s, c), k))
  {
    hide Cpus, Slots, Jobs, Forks, Lives;
    At(s, c);
    var r := DoRelease(s, c, Running(s, c), k);
    SoloKeeps(s, r, c, r.procs[Running(s, c)]);
  }

  lemma BackKeeps(s: State, c: nat)
    requires Inv(s) && Ready(s, c) && s.procs[Running(s, c)].pc.Back?
    ensures Inv(DoBack(s, c, Running(s, c)))
  {
    hide Cpus, Slots, Jobs, Forks, Lives;
    At(s, c);
    var r := DoBack(s, c, Running(s, c));
    SoloKeeps(s, r, c, r.procs[Running(s, c)]);
  }

  lemma AllocMissKeeps(s: State, c: nat, i: nat)
    requires Inv(s) && Ready(s, c) && s.procs[Running(s, c)].pc == AllocScan(i)
    requires i >= |s.procs| || s.procs[i].state != UNUSED
    ensures Inv(DoAlloc(s, Running(s, c), i))
  {
    hide Cpus, Slots, Jobs, Forks, Lives;
    At(s, c);
    var r := DoAlloc(s, Running(s, c), i);
    SoloKeeps(s, r, c, r.procs[Running(s, c)]);
  }

  lemma ExitMissKeeps(s: State, c: nat, i: nat)
    requires Inv(s) && Ready(s, c) && INIT < |s.procs| && s.procs[Running(s, c)].pc == ExitScan(i)
    requires i < |s.procs| && s.procs[i].parent != Some(Running(s, c))
    ensures Inv(DoExit(s, Running(s, c), i))
  {
    hide Cpus, Slots, Jobs, Forks, Lives;
    At(s, c);
    var p := Running(s, c);
    var r := DoExit(s, p, i);
    assert JobOk(r, p) by {
      assert ParentAwake(s, p) && Childless(s, p, i);
      assert ParentAwake(r, p) && Childless(r, p, i + 1);
    }
    hide JobOk;
    SoloKeeps(s, r, c, r.procs[p]);
  }

  lemma WaitMissKeeps(s: State, c: nat, i: nat, kids: bool)
    requires Inv(s) && Ready(s, c) && s.procs[Running(s, c)].pc == WaitScan(i, kids)
    requires i < |s.procs| && (s.procs[i].parent != Some(Running(s, c)) || s.procs[i].state != ZOMBIE)
    ensures Inv(DoWait(s, Running(s, c), i, kids))
  {
    hide Cpus, Slots, Jobs, Forks, Lives;
    At(s, c);
    var p := Running(s, c);
    var r := DoWait(s, p, i, kids);
    assert JobOk(r, p) by {
      assert Childless(s, p, i) == !kids && NoZombieChild(s, p, i);
      assert NoZombieChild(r, p, i + 1);
      ChildlessFrame(s, r, p, i);
    }
    hide JobOk;
    SoloKeeps(s, r, c, r.procs[p]);
  }

  lemma WaitGivesUpKeeps(s: State, c: nat, i: nat, kids: bool)
    requires Inv(s) && Ready(s, c) && s.procs[Running(s, c)].pc == WaitScan(i, kids)
    requires i >= |s.procs| && (!kids || s.procs[Running(s, c)].killed)
    ensures Inv(DoWait(s, Running(s, c), i, kids))
  {
    hide Cpus, Slots, Jobs, Forks, Lives;
    At(s, c);
    var r := DoWait(s, Running(s, c), i, kids);
    SoloKeeps(s, r, c, r.procs[Running(s, c)]);
  }

  // ---------------------------------------------------------------- wakeups

  predicate Roused(a: Proc, b: Proc) {
    b == a || (b == a.(state := b.state, killed := b.killed)
               && (b.state == a.state || (a.state == SLEEPING && b.state == RUNNABLE)))
  }

  /** A step of the running process in which others may be woken or killed. */
  lemma RouseKeeps(s: State, r: State, c: nat, procs: seq<Proc>)
    requires Inv(s) && Ready(s, c) && |procs| == |s.procs| && s.procs[Running(s, c)].pc.Holds()
    requires forall q | 0 <= q < |s.procs| :: Roused(s.procs[q], procs[q])
    requires |r.procs| == |procs| && r == s.(procs := procs[Running(s, c) := r.procs[Running(s, c)]])
    requires var p, y := Running(s, c), r.procs[Running(s, c)];
             y.pc.Holds() && y.pc.Ncli() == s.procs[p].pc.Ncli() && SlotOk(p, y) && CalmSlot(p, s.procs[p], y)
             && JobOk(r, p)
    ensures Inv(r)
  {
    hide JobOk, Jobs, Forks, Lives, Cpus;
    At(s, c);
    var p := Running(s, c);
    forall q | 0 <= q < |r.procs| && q != p
      ensures SlotOk(q, r.procs[q]) && CalmSlot(q, s.procs[q], r.procs[q]) && r.procs[q].pc == s.procs[q].pc {
      assert SlotOk(q, s.procs[q]) && Roused(s.procs[q], procs[q]);
    }
    assert Slots(r);
    hide Slots, SlotOk, CpuOk;
    assert Calm(s, r, p) by { hide Stays; }
    assert Stays(s, r, c, p) by { hide Calm; }
    hide Stays, Calm;
    StepKeeps(s, r, c);
  }

  lemma WakeKeeps(s: State, c: nat, chan: Chan, k: nat)
    requires Inv(s) && Ready(s, c) && s.procs[Running(s, c)].pc == WakeCs(chan, k)
    ensures Inv(DoWake(s, Running(s, c), chan, k))
  {
    hide Cpus, Slots, Jobs, Forks, Lives;
    At(s, c);
    RouseKeeps(s, DoWake(s, Running(s, c), chan, k), c, Wake(s.procs, chan));
  }

  lemma KillKeeps(s: State, c: nat, pid: nat, k: nat)
    requires Inv(s) && Ready(s, c) && s.procs[Running(s, c)].pc == KillCs(pid, k)
    ensures Inv(DoKill(s, Running(s, c), pid, k))
  {
    hide Cpus, Slots, Jobs, Forks, Lives;
    At(s, c);
    RouseKeeps(s, DoKill(s, Running(s, c), pid, k), c, Kill(s.procs, pid));
  }

  lemma ExitWakeKeeps(s: State, c: nat)
    requires Inv(s) && Ready(s, c) && s.procs[Running(s, c)].pc.ExitCs?
    ensures Inv(DoExitWake(s, Running(s, c)))
  {
    hide Cpus, Slots, Jobs, Forks, Lives;
    At(s, c);
    var p := Running(s, c);
    var r := DoExitWake(s, p);
    assert Childless(r, p, 0) && ParentAwake(r, p);
    RouseKeeps(s, r, c, if s.procs[p].parent.Some? then Wake(s.procs, OfProc(s.procs[p].parent.value)) else s.procs);
  }

  lemma IrqKeeps(s: State, c: nat, chan: Chan)
    requires Inv(s) && Enabled(s, c, Irq(chan))
    ensures Inv(Do(s, c, Irq(chan)))
  {
    hide JobOk, Jobs, Forks, Family, Pids, History, Cpus, Slots;
    IrqCpus(s, c, chan);
    CalmKeepsInv(s, Do(s, c, Irq(chan)), |s.procs|);
  }

  lemma IrqCpus(s: State, c: nat, chan: Chan)
    requires Inv(s) && Enabled(s, c, Irq(chan))
    ensures INIT < |s.procs| && Cpus(Do(s, c, Irq(chan))) && Slots(Do(s, c, Irq(chan)))
  {
    hide JobOk, Jobs, Forks, Pids, History;
    var r := Do(s, c, Irq(chan));
    forall d | 0 <= d < |r.cpus| ensures CpuOk(r, d) {
      assert CpuOk(s, d);
    }
    forall q | 0 <= q < |r.procs| && r.procs[q].pc.OnCpu() ensures Placed(r, q) {
      assert Placed(s, q);
      var d :| 0 <= d < |s.cpus| && s.cpus[d].at == Gone(q);
      assert r.cpus[d].at == Gone(q);
    }
    forall q | 0 <= q < |r.procs| ensures SlotOk(q, r.procs[q]) {
      assert SlotOk(q, s.procs[q]);
    }
  }

  // ---------------------------------------------------------------- births and deaths

  /** A step of the running process that also changes slot np, which is on no CPU. */
  ghost predicate Pair(s: State, r: State, c: nat, np: nat, z: Proc, y: Proc)
    requires Ready(s, c)
  {
    && np < |s.procs| && np != Running(s, c)
    && !s.procs[np].pc.OnCpu() && !z.pc.OnCpu() && y.pc.OnCpu()
    && r.procs == s.procs[np := z][Running(s, c) := y]
    && r.cpus == s.cpus && s.cpus[c].ncli == y.pc.Ncli() && r.lock == s.lock
    && s.procs[Running(s, c)].pc.Holds() == y.pc.Holds()
  }

  lemma PairKeepsCpus(s: State, r: State, c: nat, np: nat, z: Proc, y: Proc)
    requires Inv(s) && Ready(s, c) && Pair(s, r, c, np, z, y)
    requires SlotOk(np, z) && SlotOk(Running(s, c), y)
    ensures Cpus(r) && Slots(r)
  {
    hide Jobs, Forks, Lives, Cpus;
    At(s, c);
    StaysKeepsCpus(s, r, c, Running(s, c));
  }

  /** Only the holder of ptable.lock is in the middle of a scan. */
  lemma HolderKeepsJobs(s: State, r: State, p: nat)
    requires Cpus(s) && p < |s.procs| == |r.procs| && s.procs[p].pc.Holds()
    requires forall q | 0 <= q < |s.procs| && q != p :: SamePc(s.procs[q].pc, r.procs[q].pc)
    requires JobOk(r, p)
    ensures Jobs(r)
  {
    forall q | 0 <= q < |s.procs| ensures JobOk(r, q) {
      if q != p && r.procs[q].pc.Holds() {
        OneHolder(s, p, q);
      }
    }
  }

  /** allocproc takes slot i. */
  lemma AllocKeeps(s: State, c: nat, i: nat)
    requires Inv(s) && Ready(s, c) && s.procs[Running(s, c)].pc == AllocScan(i)
    requires i < |s.procs| && s.procs[i].state == UNUSED
    ensures Inv(DoAlloc(s, Running(s, c), i))
  {
    var p := Running(s, c);
    var r := DoAlloc(s, p, i);
    assert SlotOk(i, s.procs[i]);
    hide Cpus, Slots, Jobs, Forks, Family, Pids, History;
    At(s, c);
    PairKeepsCpus(s, r, c, i, r.procs[i], r.procs[p]);
    HolderKeepsJobs(s, r, p);
    AllocKeepsForks(s, r, p, i);
    AllocKeepsLives(s, r, p, i);
  }

  lemma AllocKeepsForks(s: State, r: State, p: nat, i: nat)
    requires Forks(s) && p < |s.procs| && i < |s.procs| && p != i && s.procs[i].state == UNUSED
             && s.procs[i].parent.None?
    requires s.procs[i].fork.NoFork? && r == DoAlloc(s, p, i)
    ensures Forks(r)
  {
    forall q | 0 <= q < |r.procs| ensures ForkOk(r, q) {
      assert ForkOk(s, q);
    }
    forall q | 0 <= q < |r.procs| && q != p && !r.procs[q].fork.NoFork? ensures r.procs[q].fork.child != i {
      assert ForkOk(s, q);
    }
  }

  lemma AllocPids(s: State, r: State, p: nat, i: nat)
    requires Lives(s) && p < |s.procs| && i < |s.procs| && p != i && s.procs[i].state == UNUSED
             && s.procs[i].parent.None?
    requires Alive(s.procs[p]) && r == DoAlloc(s, p, i)
    ensures Pids(r)
  {
    hide Family, History;
  }

  lemma AllocKeepsLives(s: State, r: State, p: nat, i: nat)
    requires Lives(s) && p < |s.procs| && i < |s.procs| && p != i && s.procs[i].state == UNUSED
             && s.procs[i].parent.None?
    requires Alive(s.procs[p]) && r == DoAlloc(s, p, i)
    ensures Lives(r)
  {
    hide Pids, History;
    AllocPids(s, r, p, i);
    QuietHistory(s, r);
    forall q, x | 0 <= q < |r.procs| && r.procs[q].parent == Some(x) ensures ParentOk(r, q, x) {
      assert ParentOk(s, q, x);
    }
  }

  /** fork records the parent of the embryo, without the lock. */
  lemma AdoptKeeps(s: State, c: nat)
    requires Inv(s) && Enabled(s, c, Adopt)
    ensures Inv(DoAdopt(s, Running(s, c)))
  {
    var p := Running(s, c);
    var r := DoAdopt(s, p);
    var np := s.procs[p].fork.child;
    hide Cpus, Jobs, Forks, Family, Pids, History;
    At(s, c);
    assert SlotOk(np, s.procs[np]);
    PairKeepsCpus(s, r, c, np, r.procs[np], r.procs[p]);
    hide Slots;
    AdoptKeepsJobs(s, r, p, np);
    AdoptKeepsForks(s, r, p, np);
    AdoptKeepsLives(s, r, p, np);
  }

  lemma AdoptKeepsJobs(s: State, r: State, p: nat, np: nat)
    requires Jobs(s) && p < |s.procs| && np < |s.procs| && p != np && s.procs[np].parent.None?
             && s.procs[np].pc.NoThread?
    requires s.procs[p].pc.Code? && s.procs[p].fork == Embryo(np) && r == DoAdopt(s, p)
    ensures Jobs(r)
  {
    forall q | 0 <= q < |r.procs| ensures JobOk(r, q) {
      assert JobOk(s, q);
      match r.procs[q].pc
      case WaitScan(i, kids) =>
        if !Childless(s, q, i) {
          var j :| 0 <= j < |s.procs| && j < i && s.procs[j].parent == Some(q);
          assert r.procs[j].parent == Some(q);
        }
        assert NoZombieChild(r, q, i);
      case _ =>
    }
  }

  lemma AdoptKeepsForks(s: State, r: State, p: nat, np: nat)
    requires Forks(s) && p < |s.procs| && np < |s.procs| && p != np
    requires s.procs[p].fork == Embryo(np) && r == DoAdopt(s, p)
    ensures Forks(r)
  {
    forall q | 0 <= q < |r.procs| ensures ForkOk(r, q) {
      assert ForkOk(s, q) && ForkOk(s, p);
    }
  }

  lemma AdoptKeepsLives(s: State, r: State, p: nat, np: nat)
    requires Lives(s) && p < |s.procs| && np < |s.procs| && p != np && s.procs[np].state == EMBRYO
             && s.procs[np].parent.None?
    requires Alive(s.procs[p]) && s.procs[p].fork == Embryo(np) && r == DoAdopt(s, p)
    ensures Lives(r)
  {
    hide Pids, History;
    QuietPids(s, r);
    QuietHistory(s, r);
    forall q, x | 0 <= q < |r.procs| && r.procs[q].parent == Some(x) ensures ParentOk(r, q, x) {
      if q != np { assert ParentOk(s, q, x); }
    }
  }

  /** fork gives the embryo back, without the lock. */
  lemma FailKeeps(s: State, c: nat)
    requires Inv(s) && Enabled(s, c, Fail)
    ensures Inv(DoFail(s, Running(s, c)))
  {
    var p := Running(s, c);
    var r := DoFail(s, p);
    var np := s.procs[p].fork.child;
    hide Cpus, Jobs, Forks, Family, Pids, History;
    At(s, c);
    assert SlotOk(np, s.procs[np]);
    PairKeepsCpus(s, r, c, np, r.procs[np], r.procs[p]);
    hide Slots;
    FailKeepsJobs(s, r, p, np);
    FailKeepsForks(s, r, p, np);
    FailKeepsLives(s, r, p, np);
  }

  lemma FailKeepsJobs(s: State, r: State, p: nat, np: nat)
    requires Jobs(s) && p < |s.procs| && np < |s.procs| && p != np && s.procs[np].pc.NoThread?
    requires s.procs[p].pc.Code? && s.procs[p].fork == Embryo(np) && r == DoFail(s, p)
    ensures Jobs(r)
  {
    forall q | 0 <= q < |r.procs| ensures JobOk(r, q) {
      assert JobOk(s, q);
      match r.procs[q].pc
      case WaitScan(i, kids) =>
        ChildlessFrame(s, r, q, i);
        assert NoZombieChild(r, q, i);
      case _ =>
    }
  }

  lemma FailKeepsForks(s: State, r: State, p: nat, np: nat)
    requires Forks(s) && p < |s.procs| && np < |s.procs| && p != np
    requires s.procs[p].fork == Embryo(np) && r == DoFail(s, p)
    ensures Forks(r)
  {
    forall q | 0 <= q < |r.procs| ensures ForkOk(r, q) {
      assert ForkOk(s, q) && ForkOk(s, p);
    }
  }

  lemma FailKeepsLives(s: State, r: State, p: nat, np: nat)
    requires Lives(s) && p < |s.procs| && np < |s.procs| && p != np && s.procs[np].state == EMBRYO
             && s.procs[np].parent.None?
    requires s.procs[p].fork == Embryo(np) && r == DoFail(s, p)
    ensures Lives(r)
  {
    hide Pids, History;
    QuietPids(s, r);
    QuietHistory(s, r);
    forall q, x | 0 <= q < |r.procs| && r.procs[q].parent == Some(x) ensures ParentOk(r, q, x) {
      assert ParentOk(s, q, x);
    }
  }

  /** fork makes the child runnable. */
  lemma PublishKeeps(s: State, c: nat)
    requires Inv(s) && Ready(s, c) && s.procs[Running(s, c)].pc.PublishCs?
    ensures Inv(DoPublish(s, Running(s, c)))
  {
    hide Cpus, Jobs, Forks, Family, Pids, History, Slots;
    var p := Running(s, c);
    At(s, c);
    var r := DoPublish(s, p);
    var np := s.procs[p].fork.child;
    SlotAt(s, np);
    PairKeepsCpus(s, r, c, np, r.procs[np], r.procs[p]);
    HolderKeepsJobs(s, r, p);
    PublishKeepsForks(s, r, p, np);
    PublishKeepsLives(s, r, p, np);
  }

  lemma PublishKeepsForks(s: State, r: State, p: nat, np: nat)
    requires Forks(s) && p < |s.procs| && np < |s.procs| && p != np && s.procs[np].fork.NoFork?
    requires s.procs[p].fork == Forked(np) && r == DoPublish(s, p)
    ensures Forks(r)
  {
    forall q | 0 <= q < |r.procs| ensures ForkOk(r, q) {
      assert ForkOk(s, q) && ForkOk(s, p);
    }
  }

  lemma PublishKeepsFamily(s: State, r: State, p: nat, np: nat)
    requires Family(s) && p < |s.procs| && np < |s.procs| && p != np && s.procs[np].state == EMBRYO
             && s.procs[np].parent == Some(p)
    requires Alive(s.procs[p]) && s.procs[p].fork == Forked(np) && r == DoPublish(s, p)
    requires forall q | 0 <= q < |s.procs| && q != np :: s.procs[q].pid != s.procs[np].pid
    ensures Family(r)
  {
    forall q, x | 0 <= q < |r.procs| && r.procs[q].parent == Some(x) ensures ParentOk(r, q, x) {
      assert ParentOk(s, q, x);
    }
  }

  lemma PublishKeepsLives(s: State, r: State, p: nat, np: nat)
    requires Lives(s) && p < |s.procs| && np < |s.procs| && p != np && s.procs[np].state == EMBRYO
             && s.procs[np].parent == Some(p)
    requires Alive(s.procs[p]) && s.procs[p].fork == Forked(np) && r == DoPublish(s, p)
    ensures Lives(r)
  {
    assert forall k | 0 <= k < |s.reaped| :: s.reaped[k].pid != s.procs[np].pid by { hide Family, Pids; }
    assert forall q | 0 <= q < |s.procs| && q != np :: s.procs[q].pid != s.procs[np].pid by { hide Family, History; }
    hide Pids, History;
    QuietPids(s, r);
    QuietHistory(s, r);
    PublishKeepsFamily(s, r, p, np);
  }

  /** wait frees the slot of zombie child i. */
  lemma ChildOf(s: State, i: nat, p: nat)
    requires Inv(s) && i < |s.procs| && s.procs[i].parent == Some(p)
    ensures ParentOk(s, i, p) && i != INIT
  {
    hide Cpus, Slots, Jobs, Forks, Pids, History;
    assert ParentOk(s, i, p);
  }

  lemma SlotAt(s: State, i: nat)
    requires Inv(s) && i < |s.procs|
    ensures SlotOk(i, s.procs[i])
  {
    hide Cpus, Jobs, Forks, Family, Pids, History;
  }

  lemma ReapKeeps(s: State, c: nat, i: nat, kids: bool)
    requires Inv(s) && Ready(s, c) && s.procs[Running(s, c)].pc == WaitScan(i, kids)
    requires i < |s.procs| && s.procs[i].parent == Some(Running(s, c)) && s.procs[i].state == ZOMBIE
    ensures Inv(DoWait(s, Running(s, c), i, kids))
  {
    hide Cpus, Jobs, Forks, Family, Pids, History, Slots;
    var p := Running(s, c);
    ChildOf(s, i, p);
    At(s, c);
    SlotAt(s, i);
    ZombieOffCpu(s, p, i);
    var r := DoWait(s, p, i, kids);
    PairKeepsCpus(s, r, c, i, r.procs[i], r.procs[p]);
    HolderKeepsJobs(s, r, p);
    ReapKeepsForks(s, r, p, i, kids);
    ReapKeepsLives(s, r, p, i, kids);
  }

  /** A zombie seen by the holder of the lock has left its CPU. */
  lemma ZombieOffCpu(s: State, p: nat, i: nat)
    requires Cpus(s) && p < |s.procs| && i < |s.procs| && p != i && s.procs[p].pc.Holds()
    requires SlotOk(i, s.procs[i]) && s.procs[i].state == ZOMBIE
    ensures s.procs[i].pc == Off(Exited)
  {
    if s.procs[i].pc.Leaving? { OneHolder(s, p, i); }
  }

  lemma ReapKeepsForks(s: State, r: State, p: nat, i: nat, kids: bool)
    requires Forks(s) && p < |s.procs| && i < |s.procs| && p != i
    requires s.procs[i].parent == Some(p) && s.procs[i].state == ZOMBIE && s.procs[i].fork.NoFork?
             && r == DoWait(s, p, i, kids)
    ensures Forks(r)
  {
    forall q | 0 <= q < |r.procs| ensures ForkOk(r, q) {
      assert ForkOk(s, q);
    }
  }

  lemma ReapKeepsLives(s: State, r: State, p: nat, i: nat, kids: bool)
    requires Lives(s) && p < |s.procs| && i < |s.procs| && p != i
    requires s.procs[i].parent == Some(p) && s.procs[i].state == ZOMBIE && Alive(s.procs[p])
             && r == DoWait(s, p, i, kids)
    ensures Lives(r)
  {
    assert ParentOk(s, i, p);
    assert Pids(r) && s.procs[i].pid > 0
           && (forall q | 0 <= q < |s.procs| && q != i :: s.procs[q].pid != s.procs[i].pid)
    by { hide Family, History; }
    assert s.procs[p].pid == INIT_PID || s.forker[s.procs[i].pid] == s.procs[p].pid by { hide Pids, History; }
    assert s.procs[i].pid < s.nextpid by { hide Family, History; }
    hide Pids, History;
    ReapKeepsHistory(s, r, i, s.procs[p].pid);
    ReapKeepsFamily(s, r, p, i, kids);
  }

  lemma ReapKeepsFamily(s: State, r: State, p: nat, i: nat, kids: bool)
    requires Family(s) && p < |s.procs| && i < |s.procs| && p != i
    requires s.procs[i].parent == Some(p) && s.procs[i].state == ZOMBIE && Alive(s.procs[p])
             && r == DoWait(s, p, i, kids)
    ensures Family(r)
  {
    forall q, x | 0 <= q < |r.procs| && r.procs[q].parent == Some(x) ensures ParentOk(r, q, x) {
      assert ParentOk(s, q, x);
    }
  }

  lemma ReapKeepsHistory(s: State, r: State, i: nat, waiter: nat)
    requires History(s) && i < |s.procs| == |r.procs| && s.procs[i].state == ZOMBIE
    requires r.procs[i].pid == 0 && r.procs[i].state == UNUSED
    requires forall q | 0 <= q < |s.procs| && q != i ::
               r.procs[q].pid == s.procs[q].pid != s.procs[i].pid
               && (r.procs[q].state == ZOMBIE <==> s.procs[q].state == ZOMBIE)
    requires r.reaped == s.reaped + [Reap(s.procs[i].pid, waiter)]
    requires r.exited == s.exited && r.forker == s.forker && r.nextpid == s.nextpid
    requires 0 < s.procs[i].pid < s.nextpid && s.procs[i].pid in s.forker
    requires waiter == INIT_PID || s.forker[s.procs[i].pid] == waiter
    ensures History(r)
  {
    var n := |s.reaped|;
    forall k | 0 <= k < |r.reaped| ensures ReapOk(r, r.reaped[k]) {
      if k < n { assert ReapOk(s, s.reaped[k]); }
    }
    forall k, q | 0 <= k < |r.reaped| && 0 <= q < |r.procs| ensures r.reaped[k].pid != r.procs[q].pid {
      if k < n {
        assert r.reaped[k] == s.reaped[k] && ReapOk(s, s.reaped[k]) && s.reaped[k].pid != s.procs[q].pid;
      }
    }
    forall pid | pid in r.exited ensures Reaped(r, pid) || ZombieWith(r, pid) {
      if pid == s.procs[i].pid {
        assert r.reaped[n].pid == pid;
      } else if ZombieWith(s, pid) {
        var q :| 0 <= q < |s.procs| && s.procs[q].state == ZOMBIE && s.procs[q].pid == pid;
        assert r.procs[q].state == ZOMBIE;
      } else {
        var k :| 0 <= k < |s.reaped| && s.reaped[k].pid == pid;
        assert r.reaped[k].pid == pid;
      }
    }
  }

  /** exit passes child i to init. */
  lemma ReparentKeeps(s: State, c: nat, i: nat)
    requires Inv(s) && Ready(s, c) && s.procs[Running(s, c)].pc == ExitScan(i)
    requires i < |s.procs| && s.procs[i].parent == Some(Running(s, c))
    ensures Inv(DoExit(s, Running(s, c), i))
  {
    hide Cpus, Slots, Jobs, Forks, Family, Pids, History;
    var p := Running(s, c);
    ChildOf(s, i, p);
    At(s, c);
    var r := DoExit(s, p, i);
    ReparentShape(s, p, i);
    ReparentCpus(s, c, i);
    ReparentKeepsForks(s, r, p, i);
    ReparentKeepsLives(s, r, p, i);
    assert JobOk(r, p) by {
      assert Childless(s, p, i) && ParentAwake(s, p);
      assert Childless(r, p, i + 1) && ParentAwake(r, p);
    }
    HolderKeepsJobs(s, r, p);
  }

  /** Slot by slot, what passing child i to init changes. */
  lemma ReparentShape(s: State, p: nat, i: nat)
    requires p < |s.procs| && i < |s.procs| && INIT < |s.procs| && i != p && s.procs[i].parent == Some(p)
             && s.procs[p].state == RUNNING
    ensures var r := DoExit(s, p, i);
            && |r.procs| == |s.procs| && r == s.(procs := r.procs)
            && r.procs[p] == s.procs[p].(pc := ExitScan(i + 1))
            && (forall q | 0 <= q < |s.procs| && q != p ::
                  && r.procs[q] == s.procs[q].(parent := r.procs[q].parent, state := r.procs[q].state)
                  && r.procs[q].parent == (if q == i then Some(INIT) else s.procs[q].parent)
                  && (r.procs[q].state == s.procs[q].state
                      || (SleepsOn(s.procs[q], OfProc(INIT)) && r.procs[q].state == RUNNABLE)))
            && (s.procs[i].state == ZOMBIE ==> !SleepsOn(r.procs[INIT], OfProc(INIT)))
  {
  }

  lemma ReparentSlots(s: State, p: nat, i: nat)
    requires Slots(s) && p < |s.procs| && INIT < |s.procs| && s.procs[p].pc == ExitScan(i)
             && s.procs[p].state == RUNNING
    requires i < |s.procs| && s.procs[i].parent == Some(p) && i != p
    ensures Slots(DoExit(s, p, i))
  {
    var r := DoExit(s, p, i);
    ReparentShape(s, p, i);
    hide DoExit;
    forall q | 0 <= q < |r.procs| ensures SlotOk(q, r.procs[q]) {
      assert SlotOk(q, s.procs[q]);
    }
  }

  lemma ReparentCpus(s: State, c: nat, i: nat)
    requires Inv(s) && Ready(s, c) && s.procs[Running(s, c)].pc == ExitScan(i)
             && s.procs[Running(s, c)].state == RUNNING
    requires i < |s.procs| && s.procs[i].parent == Some(Running(s, c)) && i != Running(s, c)
    ensures Cpus(DoExit(s, Running(s, c), i)) && Slots(DoExit(s, Running(s, c), i))
  {
    var p := Running(s, c);
    hide Jobs, Forks, Lives, Cpus, Slots;
    ReparentSlots(s, p, i);
    At(s, c);
    ReparentShape(s, p, i);
    hide SlotOk;
    StaysKeepsCpus(s, DoExit(s, p, i), c, p);
  }

  lemma ReparentKeepsForks(s: State, r: State, p: nat, i: nat)
    requires Forks(s) && p < |s.procs| && INIT < |s.procs| && i < |s.procs| && i != p && s.procs[p].fork.NoFork?
    requires s.procs[i].parent == Some(p) && s.procs[p].state == RUNNING && r == DoExit(s, p, i)
    ensures Forks(r)
  {
    ReparentShape(s, p, i);
    hide DoExit;
    forall q | 0 <= q < |r.procs| ensures ForkOk(r, q) {
      assert ForkOk(s, q);
      if !s.procs[q].fork.NoFork? {
        assert s.procs[q].fork.child != i;
      }
    }
  }

  lemma ReparentKeepsFamily(s: State, r: State, p: nat, i: nat)
    requires Family(s) && p < |s.procs| && i < |s.procs| && i != p && p != INIT && i != INIT
    requires s.procs[i].parent == Some(p) && s.procs[p].state == RUNNING && r == DoExit(s, p, i)
    ensures Family(r)
  {
    ReparentShape(s, p, i);
    hide DoExit;
    forall q, x | 0 <= q < |r.procs| && r.procs[q].parent == Some(x) ensures ParentOk(r, q, x) {
      if q == i { assert ParentOk(s, i, p); } else { assert ParentOk(s, q, x); }
    }
  }

  lemma ReparentKeepsLives(s: State, r: State, p: nat, i: nat)
    requires Lives(s) && p < |s.procs| && i < |s.procs| && i != p && p != INIT && i != INIT
    requires s.procs[i].parent == Some(p) && s.procs[p].state == RUNNING && r == DoExit(s, p, i)
    ensures Lives(r)
  {
    ReparentShape(s, p, i);
    hide DoExit;
    assert forall q | 0 <= q < |s.procs| ::
        r.procs[q].pid == s.procs[q].pid
        && (r.procs[q].state == s.procs[q].state || (Alive(s.procs[q]) && Alive(r.procs[q])));
    assert Family(r) by {
      hide Pids, History;
      ReparentKeepsFamily(s, r, p, i);
    }
    hide Family, Pids, History;
    QuietPids(s, r);
    QuietHistory(s, r);
  }

  /** exit's last store: the process has no children left and its parent is awake. */
  lemma ZombieKeeps(s: State, c: nat, i: nat)
    requires Inv(s) && Ready(s, c) && s.procs[Running(s, c)].pc == ExitScan(i) && i >= |s.procs|
    ensures INIT < |s.procs| && Inv(DoExit(s, Running(s, c), i))
  {
    var p := Running(s, c);
    assert INIT < |s.procs|;
    hide Cpus, Slots, Jobs, Forks, Family, Pids, History;
    At(s, c);
    var r := DoExit(s, p, i);
    SoloCpus(s, r, c, r.procs[p]);
    HolderKeepsJobs(s, r, p);
    ZombieKeepsForks(s, r, p, i);
    ZombieKeepsLives(s, r, p, i);
  }

  lemma SoloCpus(s: State, r: State, c: nat, y: Proc)
    requires Inv(s) && Ready(s, c) && |r.procs| == |s.procs| && r.procs == s.procs[Running(s, c) := y]
    requires r.cpus == s.cpus && r.lock == s.lock && y.pc.OnCpu()
    requires y.pc.Ncli() == s.procs[Running(s, c)].pc.Ncli() && y.pc.Holds() == s.procs[Running(s, c)].pc.Holds()
    requires SlotOk(Running(s, c), y)
    ensures Cpus(r) && Slots(r)
  {
    hide Cpus, Jobs, Forks, Lives;
    At(s, c);
    assert Slots(r);
    hide Slots, SlotOk;
    StaysKeepsCpus(s, r, c, Running(s, c));
  }

  lemma ZombieKeepsForks(s: State, r: State, p: nat, i: nat)
    requires Forks(s) && p < |s.procs| && INIT < |s.procs| && i >= |s.procs| && s.procs[p].state == RUNNING
    requires s.procs[p].fork.NoFork? && r == DoExit(s, p, i)
    ensures Forks(r)
  {
    forall q | 0 <= q < |r.procs| ensures ForkOk(r, q) {
      assert ForkOk(s, q);
    }
  }

  lemma ZombieKeepsLives(s: State, r: State, p: nat, i: nat)
    requires Lives(s) && p < |s.procs| && i >= |s.procs| && s.procs[p].state == RUNNING && p != INIT
    requires Childless(s, p, i) && ParentAwake(s, p) && r == DoExit(s, p, i)
    ensures Lives(r)
  {
    assert History(r) by { hide Family, Pids; ZombieKeepsHistory(s, r, p, i); }
    hide Pids, History;
    QuietPids(s, r);
    forall q, x | 0 <= q < |r.procs| && r.procs[q].parent == Some(x) ensures ParentOk(r, q, x) {
      assert ParentOk(s, q, x);
      assert x != p;
    }
  }

  lemma ZombieKeepsHistory(s: State, r: State, p: nat, i: nat)
    requires History(s) && INIT < |s.procs| && p < |s.procs| && i >= |s.procs| && s.procs[p].state == RUNNING
             && r == DoExit(s, p, i)
    ensures History(r)
  {
    forall k | 0 <= k < |r.reaped| ensures ReapOk(r, r.reaped[k]) { assert ReapOk(s, s.reaped[k]); }
    forall pid | pid in r.exited ensures Reaped(r, pid) || ZombieWith(r, pid) {
      if pid == s.procs[p].pid {
        assert r.procs[p].state == ZOMBIE;
      } else if ZombieWith(s, pid) {
        var q :| 0 <= q < |s.procs| && s.procs[q].state == ZOMBIE && s.procs[q].pid == pid;
        assert r.procs[q].state == ZOMBIE;
      } else {
        var k :| 0 <= k < |s.reaped| && s.reaped[k].pid == pid;
        assert r.reaped[k].pid == pid;
      }
    }
  }

  /** wait goes to sleep only after a scan that met no zombie child. */
  lemma WaitSleepKeeps(s: State, c: nat, i: nat)
    requires Inv(s) && Ready(s, c) && s.procs[Running(s, c)].pc == WaitScan(i, true)
    requires i >= |s.procs| && !s.procs[Running(s, c)].killed
    ensures Inv(DoWait(s, Running(s, c), i, true))
  {
    var p := Running(s, c);
    hide Cpus, Slots, Jobs, Forks, Family, Pids, History;
    At(s, c);
    var r := DoWait(s, p, i, true);
    SoloCpus(s, r, c, r.procs[p]);
    HolderKeepsJobs(s, r, p);
    WaitSleepKeepsForks(s, r, p, i);
    WaitSleepKeepsLives(s, r, p, i);
  }

  lemma WaitSleepKeepsForks(s: State, r: State, p: nat, i: nat)
    requires Forks(s) && p < |s.procs| && i >= |s.procs| && s.procs[p].state == RUNNING
    requires r == DoWait(s, p, i, true) && !s.procs[p].killed
    ensures Forks(r)
  {
    forall q | 0 <= q < |r.procs| ensures ForkOk(r, q) {
      assert ForkOk(s, q);
    }
  }

  lemma WaitSleepKeepsLives(s: State, r: State, p: nat, i: nat)
    requires Lives(s) && p < |s.procs| && i >= |s.procs| && s.procs[p].state == RUNNING
    requires NoZombieChild(s, p, i) && r == DoWait(s, p, i, true) && !s.procs[p].killed
    ensures Lives(r)
  {
    hide Pids, History;
    QuietPids(s, r);
    QuietHistory(s, r);
    forall q, x | 0 <= q < |r.procs| && r.procs[q].parent == Some(x) ensures ParentOk(r, q, x) {
      assert ParentOk(s, q, x);
    }
  }

  // ---------------------------------------------------------------- whole runs

  lemma ContKeeps(s: State, c: nat)
    requires Inv(s) && Enabled(s, c, Cont)
    ensures INIT < |s.procs| && Inv(DoCont(s, c))
  {
    hide Cpus, Slots, Jobs, Forks, Pids, History;
    assert INIT < |s.procs|;
    hide Family, DoAlloc, DoPublish, DoExit, DoWait, DoSwitch, DoBack, DoYield, DoSleep, DoWake, DoKill, DoExitWake,
      DoRelease, Inv;
    var p := Running(s, c);
    match s.procs[p].pc
    case YieldCs => YieldKeeps(s, c);
    case SleepCs(id) => SleepKeeps(s, c, id);
    case WakeCs(chan, k) => WakeKeeps(s, c, chan, k);
    case KillCs(pid, k) => KillKeeps(s, c, pid, k);
    case AllocScan(i) => if i < |s.procs| && s.procs[i].state == UNUSED { AllocKeeps(s, c, i); }
    else { AllocMissKeeps(s, c, i); }
    case PublishCs => PublishKeeps(s, c);
    case ExitCs => ExitWakeKeeps(s, c);
    case ExitScan(i) =>
      if i >= |s.procs| { ZombieKeeps(s, c, i); }
      else if s.procs[i].parent == Some(p) { ReparentKeeps(s, c, i); }
      else { ExitMissKeeps(s, c, i); }
    case WaitScan(i, kids) =>
      if i >= |s.procs| {
        if !kids || s.procs[p].killed { WaitGivesUpKeeps(s, c, i, kids); } else { WaitSleepKeeps(s, c, i); }
      } else if s.procs[i].parent == Some(p) && s.procs[i].state == ZOMBIE { ReapKeeps(s, c, i, kids); }
      else { WaitMissKeeps(s, c, i, kids); }
    case Done(k) => ReleaseKeeps(s, c, k);
    case Leaving(_) => SwitchKeeps(s, c);
    case Back(_) => BackKeeps(s, c);
  }

  /** Every step keeps the invariant. */
  lemma InvStep(s: State, c: nat, a: Act)
    requires Inv(s) && Enabled(s, c, a)
    ensures INIT < |s.procs| && Inv(Do(s, c, a))
  {
    assert INIT < |s.procs|;
    match a
    case Sched => ScheduleKeeps(s, c);
    case Irq(chan) => IrqKeeps(s, c, chan);
    case Cont => ContKeeps(s, c);
    case Spin => SpinKeeps(s, c, 1);
    case Unspin => SpinKeeps(s, c, -1);
    case Call(job) => CallKeeps(s, c, job);
    case Adopt => AdoptKeeps(s, c);
    case Fail => FailKeeps(s, c);
  }

  lemma StartInv(ncpu: nat, nproc: nat)
    requires INIT < nproc
    ensures Inv(Start(ncpu, nproc))
  {
  }

  lemma {:induction false} ExecKeeps(s: State, moves: seq<Move>)
    requires Inv(s) && INIT < |s.procs| && Possible(s, moves)
    ensures Inv(Exec(s, moves))
    decreases |moves|
  {
    hide Cpus, Slots, Jobs, Forks, Lives, Do;
    if moves != [] {
      InvStep(s, moves[0].cpu, moves[0].act);
      ExecKeeps(Do(s, moves[0].cpu, moves[0].act), moves[1..]);
    }
  }

  // ---------------------------------------------------------------- main results

  /** In every interleaving each process is RUNNING on at most one CPU, and a CPU that runs a process
      runs one that is on no other. */
  lemma RunningOnOneCpu(ncpu: nat, nproc: nat, moves: seq<Move>)
    requires INIT < nproc && Possible(Start(ncpu, nproc), moves)
    ensures var s := Exec(Start(ncpu, nproc), moves);
            && (forall c, d | 0 <= c < d < |s.cpus| && s.cpus[c].proc.Some? :: s.cpus[c].proc != s.cpus[d].proc)
            && (forall p | 0 <= p < |s.procs| && s.procs[p].state == RUNNING ::
                  exists c | 0 <= c < |s.cpus| :: s.cpus[c].proc == Some(p))
  {
    StartInv(ncpu, nproc);
    ExecKeeps(Start(ncpu, nproc), moves);
    var s := Exec(Start(ncpu, nproc), moves);
    OneCpuEach(s);
  }

  lemma OneCpuEach(s: State)
    requires Inv(s)
    ensures forall c, d | 0 <= c < d < |s.cpus| && s.cpus[c].proc.Some? :: s.cpus[c].proc != s.cpus[d].proc
    ensures forall p | 0 <= p < |s.procs| && s.procs[p].state == RUNNING :: exists c | 0 <= c < |s.cpus| ::
                                                                              s.cpus[c].proc == Some(p)
  {
    forall c, d | 0 <= c < d < |s.cpus| && s.cpus[c].proc.Some? ensures s.cpus[c].proc != s.cpus[d].proc {
      assert CpuOk(s, c) && CpuOk(s, d);
    }
    forall p | 0 <= p < |s.procs| && s.procs[p].state == RUNNING
      ensures exists c | 0 <= c < |s.cpus| :: s.cpus[c].proc == Some(p) {
      assert SlotOk(p, s.procs[p]);
      assert Placed(s, p);
      var c :| 0 <= c < |s.cpus| && s.cpus[c].at == Gone(p);
      assert CpuOk(s, c);
    }
  }

  /** ptable.lock crosses every swtch: whoever calls sched() holds it with ncli == 1 and is no longer
      RUNNING, so none of sched's panics happens; the scheduler goes on with the lock held and ncli == 1,
      and so does a thread it resumes. */
  lemma LockHandOff(ncpu: nat, nproc: nat, moves: seq<Move>, c: nat)
    requires INIT < nproc && Possible(Start(ncpu, nproc), moves)
    requires var s := Exec(Start(ncpu, nproc), moves);
             Ready(s, c) && (s.procs[Running(s, c)].pc.Leaving? || s.procs[Running(s, c)].pc.Back?)
    ensures var s := Exec(Start(ncpu, nproc), moves);
            var p := Running(s, c);
            && s.lock == Some(c) && s.cpus[c].ncli == 1 && s.cpus[c].proc == Some(p)
            && (s.procs[p].pc.Leaving? ==> s.procs[p].state != RUNNING)
            && (s.procs[p].pc.Back? ==> s.procs[p].state == RUNNING && s.procs[p].pc.why != Exited)
            && (s.procs[p].pc.Leaving? ==>
                  var r := Do(s, c, Cont); r.lock == Some(c) && r.cpus[c] == Cpu(None, 1, Scan(p + 1)))
  {
    hide Inv, Exec, Possible;
    StartInv(ncpu, nproc);
    ExecKeeps(Start(ncpu, nproc), moves);
    HandOff(Exec(Start(ncpu, nproc), moves), c);
  }

  lemma HandOff(s: State, c: nat)
    requires Inv(s) && Ready(s, c) && (s.procs[Running(s, c)].pc.Leaving? || s.procs[Running(s, c)].pc.Back?)
    ensures var p := Running(s, c);
            && s.lock == Some(c) && s.cpus[c].ncli == 1 && s.cpus[c].proc == Some(p)
            && (s.procs[p].pc.Leaving? ==> s.procs[p].state != RUNNING)
            && (s.procs[p].pc.Back? ==> s.procs[p].state == RUNNING && s.procs[p].pc.why != Exited)
            && (s.procs[p].pc.Leaving? ==>
                  Enabled(s, c, Cont) && INIT < |s.procs| && var r := Do(s, c, Cont);
                                                          r.lock == Some(c) && r.cpus[c] == Cpu(None, 1, Scan(p + 1)))
  {
    hide Cpus, Slots, Jobs, Forks, Pids, History, Family;
    At(s, c);
  }

  /** The lock excludes: two threads are never inside ptable critical sections together, and no thread
      is while a scheduler scans the table. */
  lemma TableLockExcludes(ncpu: nat, nproc: nat, moves: seq<Move>, p: nat, q: nat)
    requires INIT < nproc && Possible(Start(ncpu, nproc), moves)
    ensures var s := Exec(Start(ncpu, nproc), moves);
            && (p < |s.procs| && q < |s.procs| && s.procs[p].pc.Holds() && s.procs[q].pc.Holds() ==> p == q)
            && (forall c | 0 <= c < |s.cpus| && s.cpus[c].at.Scan? && p < |s.procs| :: !s.procs[p].pc.Holds())
  {
    StartInv(ncpu, nproc);
    ExecKeeps(Start(ncpu, nproc), moves);
    var s := Exec(Start(ncpu, nproc), moves);
    hide Slots, Jobs, Forks, Lives, Start, Exec, Possible;
    if p < |s.procs| && q < |s.procs| && s.procs[p].pc.Holds() && s.procs[q].pc.Holds() { OneHolder(s, p, q); }
    forall c | 0 <= c < |s.cpus| && s.cpus[c].at.Scan? && p < |s.procs| ensures !s.procs[p].pc.Holds() {
      assert CpuOk(s, c);
      if s.procs[p].pc.Holds() { HolderHasLock(s, p); }
    }
  }

  /** Pids in use are positive and distinct. */
  lemma PidsDistinct(ncpu: nat, nproc: nat, moves: seq<Move>)
    requires INIT < nproc && Possible(Start(ncpu, nproc), moves)
    ensures var s := Exec(Start(ncpu, nproc), moves);
            && (forall p | 0 <= p < |s.procs| && s.procs[p].state != UNUSED :: 0 < s.procs[p].pid < s.nextpid)
            && (forall p, q | 0 <= p < q < |s.procs| && s.procs[p].state != UNUSED && s.procs[q].state != UNUSED ::
                  s.procs[p].pid != s.procs[q].pid)
  {
    StartInv(ncpu, nproc);
    ExecKeeps(Start(ncpu, nproc), moves);
    hide Cpus, Slots, Jobs, Forks, Family, History, Start, Exec, Possible;
  }

  /** No zombie is slept through: its parent exists, is alive and is not asleep in wait. */
  lemma NoZombieSleptThrough(ncpu: nat, nproc: nat, moves: seq<Move>, p: nat)
    requires INIT < nproc && Possible(Start(ncpu, nproc), moves)
    requires var s := Exec(Start(ncpu, nproc), moves); p < |s.procs| && s.procs[p].state == ZOMBIE
    ensures var s := Exec(Start(ncpu, nproc), moves);
            && s.procs[p].parent.Some?
            && var q := s.procs[p].parent.value;
            q < |s.procs| && Alive(s.procs[q]) && !SleepsOn(s.procs[q], OfProc(q))
  {
    StartInv(ncpu, nproc);
    ExecKeeps(Start(ncpu, nproc), moves);
    var s := Exec(Start(ncpu, nproc), moves);
    hide Cpus, Slots, Jobs, Forks, Pids, History, Start, Exec, Possible;
    assert Alive(s.procs[INIT]) && p != INIT;
    assert ParentOk(s, p, s.procs[p].parent.value);
  }

  /** Each process that exited is reaped at most once, by the process that forked it or by init, and
      until then it is a zombie somebody can reap; nobody else is ever reaped. */
  lemma ReapedOnce(ncpu: nat, nproc: nat, moves: seq<Move>)
    requires INIT < nproc && Possible(Start(ncpu, nproc), moves)
    ensures var s := Exec(Start(ncpu, nproc), moves);
            && (forall i, j | 0 <= i < j < |s.reaped| :: s.reaped[i].pid != s.reaped[j].pid)
            && (forall i | 0 <= i < |s.reaped| ::
                  && s.reaped[i].pid in s.exited && s.reaped[i].pid in s.forker
                  && (s.reaped[i].waiter == INIT_PID || s.reaped[i].waiter == s.forker[s.reaped[i].pid]))
            && (forall pid | pid in s.exited :: Reaped(s, pid) != ZombieWith(s, pid))
  {
    StartInv(ncpu, nproc);
    ExecKeeps(Start(ncpu, nproc), moves);
    var s := Exec(Start(ncpu, nproc), moves);
    hide Cpus, Slots, Jobs, Forks, Family, Pids, Start, Exec, Possible;
    assert forall i | 0 <= i < |s.reaped| :: ReapOk(s, s.reaped[i]);
  }

  /** wait gives up only when the caller has no children or was killed. */
  lemma WaitGivesUpRightly(ncpu: nat, nproc: nat, moves: seq<Move>, c: nat)
    requires INIT < nproc && Possible(Start(ncpu, nproc), moves)
    requires var s := Exec(Start(ncpu, nproc), moves);
             Ready(s, c) && s.procs[Running(s, c)].pc.WaitScan? && s.procs[Running(s, c)].pc.i >= |s.procs|
    ensures var s := Exec(Start(ncpu, nproc), moves);
            var p := Running(s, c);
            Do(s, c, Cont).procs[p].pc == Done(0) <==> Childless(s, p, |s.procs|) || s.procs[p].killed
  {
    StartInv(ncpu, nproc);
    ExecKeeps(Start(ncpu, nproc), moves);
    var s := Exec(Start(ncpu, nproc), moves);
    hide Cpus, Slots, Jobs, Forks, Pids, History, Start, Exec, Possible;
    At(s, c);
  }

  // ---------------------------------------------------------------- the scans as loops

  /** The process table itself, for the scans that run from end to end inside one critical section. */
  class Table {
    const proc: array<Proc>

    constructor (n: nat)
      ensures proc.Length == n && fresh(proc)
      ensures forall p | 0 <= p < n :: proc[p].state == UNUSED
    {
      proc := new Proc[n](_ => Proc(UNUSED, 0, None, NoChan, false, NoThread, NoFork));
    }

    /** wakeup1 */
    method Wakeup1(chan: Chan)
      modifies proc
      ensures proc[..] == Wake(old(proc[..]), chan)
      ensures WakeupDone(old(proc[..]), proc[..], chan)
    {
      ghost var was := proc[..];
      for p := 0 to proc.Length
        invariant forall q | 0 <= q < p :: proc[q] == Woken(was[q], chan)
        invariant forall q | p <= q < proc.Length :: proc[q] == was[q]
      {
        if proc[p].state == SLEEPING && proc[p].chan == chan {
          proc[p] := proc[p].(state := RUNNABLE);
        }
      }
    }

    /** kill; found is its return value. */
    method KillPid(pid: nat) returns (found: bool)
      modifies proc
      ensures proc[..] == Kill(old(proc[..]), pid)
      ensures KillDone(old(proc[..]), proc[..], pid)
      ensures found <==> exists p | 0 <= p < proc.Length :: old(proc[p].pid) == pid
    {
      ghost var was := proc[..];
      var p := 0;
      while p < proc.Length
        invariant 0 <= p <= proc.Length && proc[..] == was
        invariant forall q | 0 <= q < p :: was[q].pid != pid
        invariant SlotOf(was, pid, 0) == SlotOf(was, pid, p)
      {
        if proc[p].pid == pid {
          proc[p] := proc[p].(killed := true);
          if proc[p].state == SLEEPING {
            proc[p] := proc[p].(state := RUNNABLE);
          }
          return true;
        }
        p := p + 1;
      }
      return false;
    }
  }
}
