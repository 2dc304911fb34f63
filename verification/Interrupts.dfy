/** pushcli and popcli of spinlock.c, and what sched does with intena: the interrupt flag of any number of CPUs
    and kernel threads that move between them. */
module Interrupts {
  import opened Common

  /** A CPU: nesting depth of pushcli, the flag as it was before the outermost one, the flag itself, and the
      thread it runs. */
  datatype Cpu = Cpu(ncli: nat, intena: bool, flag: bool, thread: nat)

  /** A kernel thread: how deep it is in pushcli, how it found the flag at the outermost one, and while it is
      switched out what sched has kept in its local variable. */
  datatype Thread = Thread(depth: nat, was: bool, kept: Option<bool>)

  /** The threads below |cpus| are the schedulers of the CPUs. */
  datatype State = State(cpus: seq<Cpu>, threads: seq<Thread>)

  datatype Step =
    | Push(c: nat)
    | Pop(c: nat)
    | Flag(c: nat, on: bool)      // sti, cli, or an interrupt entered or left, outside pushcli
    | Leave(c: nat)               // sched: from a process to the CPU's scheduler
    | Resume(c: nat, t: nat)      // the scheduler goes on with a process that called sched before
    | First(c: nat, t: nat)       // the scheduler starts a process that has never run, in forkret

  function Put(s: State, c: nat, cpu: Cpu, thread: Thread): (r: State)
    requires c < |s.cpus| && s.cpus[c].thread < |s.threads|
  {
    State(s.cpus[c := cpu], s.threads[s.cpus[c].thread := thread])
  }

  predicate OnCpu(s: State, t: nat) { exists c | 0 <= c < |s.cpus| :: s.cpus[c].thread == t }

  /** A thread undoes only what it has done; schedulers switch only to processes, with one lock held, and sched's
      own tests let the others switch only with one lock held. */
  ghost predicate Enabled(s: State, m: Step) {
    m.c < |s.cpus| && s.cpus[m.c].thread < |s.threads| &&
    var cpu := s.cpus[m.c];
    match m
    case Push(_) => true
    case Pop(_) => s.threads[cpu.thread].depth > 0
    case Flag(_, _) => s.threads[cpu.thread].depth == 0
    case Leave(c) => cpu.thread >= |s.cpus| && s.threads[cpu.thread].depth == 1 && c < |s.threads|
    case Resume(c, t) =>
      && cpu.thread == c && s.threads[c].depth == 1
      && |s.cpus| <= t < |s.threads| && !OnCpu(s, t) && s.threads[t].depth == 1 && s.threads[t].kept.Some?
    case First(c, t) =>
      && cpu.thread == c && s.threads[c].depth == 1
      && |s.cpus| <= t < |s.threads| && !OnCpu(s, t) && s.threads[t] == Thread(0, false, None)
  }

  /** popcli and sched panic when they find interrupts enabled, popcli also when there is nothing to pop, and
      sched when more or less than one lock is held. */
  predicate Panics(s: State, m: Step)
    requires m.c < |s.cpus|
  {
    var cpu := s.cpus[m.c];
    match m
    case Pop(_) => cpu.flag || cpu.ncli == 0
    case Leave(_) => cpu.flag || cpu.ncli != 1
    case _ => false
  }

  function Do(s: State, m: Step): (r: State)
    requires m.c < |s.cpus| && s.cpus[m.c].thread < |s.threads| && !Panics(s, m)
    requires m.Leave? ==> m.c < |s.threads|
    requires m.Resume? || m.First? ==> m.t < |s.threads|
  {
    var cpu := s.cpus[m.c];
    var th := s.threads[cpu.thread];
    match m
    case Push(c) =>
      if cpu.ncli == 0
      then Put(s, c, cpu.(intena := cpu.flag, flag := false, ncli := 1), th.(depth := th.depth + 1, was := cpu.flag))
      else Put(s, c, cpu.(flag := false, ncli := cpu.ncli + 1), th.(depth := th.depth + 1))
    case Pop(c) =>
      var n := cpu.ncli - 1;
      Put(s, c, cpu.(ncli := n, flag := if n == 0 && cpu.intena then true else cpu.flag),
          th.(depth := if th.depth > 0 then th.depth - 1 else 0))
    case Flag(c, on) => Put(s, c, cpu.(flag := on), th)
    case Leave(c) => Put(s, c, cpu.(thread := c), th.(kept := Some(cpu.intena)))
    case Resume(c, t) =>
      var x := s.threads[t];
      State(s.cpus[c := cpu.(thread := t, intena := if x.kept.Some? then x.kept.value else cpu.intena)],
            s.threads[t := x.(kept := None)])
    case First(c, t) =>
      State(s.cpus[c := cpu.(thread := t)], s.threads[t := Thread(1, cpu.intena, None)])
  }

  ghost predicate Possible(s: State, steps: seq<Step>)
    decreases |steps|
  {
    steps == [] || (Enabled(s, steps[0]) && !Panics(s, steps[0]) && Possible(Do(s, steps[0]), steps[1..]))
  }

  ghost function Exec(s: State, steps: seq<Step>): (r: State)
    requires Possible(s, steps)
    decreases |steps|
  {
    if steps == [] then s else Exec(Do(s, steps[0]), steps[1..])
  }

  /** Every CPU runs its scheduler, with interrupts off as at boot; no process has run yet. */
  function Start(ncpu: nat, nproc: nat): (s: State) {
    State(seq(ncpu, c requires 0 <= c => Cpu(0, false, false, c)), seq(ncpu + nproc, _ => Thread(0, false, None)))
  }

  /** A CPU's depth is that of its thread, and inside pushcli interrupts are off; for a process, intena is how it
      found the flag. */
  ghost predicate CpuOk(s: State, c: nat)
    requires c < |s.cpus|
  {
    var cpu := s.cpus[c];
    && cpu.thread < |s.threads| && (cpu.thread < |s.cpus| ==> cpu.thread == c)
    && s.threads[cpu.thread].depth == cpu.ncli && s.threads[cpu.thread].kept.None?
    && (cpu.ncli > 0 ==> !cpu.flag)
    && (cpu.ncli > 0 && cpu.thread >= |s.cpus| ==> cpu.intena == s.threads[cpu.thread].was)
    && (cpu.thread != c ==> c < |s.threads| && s.threads[c].depth == 1 && s.threads[c].kept.None?)
  }

  /** What sched keeps of a process that is switched out is how the process found the flag. */
  ghost predicate ThreadOk(s: State, t: nat)
    requires t < |s.threads|
  {
    s.threads[t].kept.Some? ==> t >= |s.cpus| && s.threads[t].depth == 1 && s.threads[t].kept == Some(s.threads[t].was)
  }

  ghost predicate Inv(s: State) {
    && |s.cpus| <= |s.threads|
    && (forall c | 0 <= c < |s.cpus| :: CpuOk(s, c))
    && (forall c, d | 0 <= c < d < |s.cpus| :: s.cpus[c].thread != s.cpus[d].thread)
    && (forall t | 0 <= t < |s.threads| :: ThreadOk(s, t))
  }

  lemma NoPanic(s: State, m: Step)
    requires Inv(s) && Enabled(s, m)
    ensures !Panics(s, m)
  {
    assert CpuOk(s, m.c);
  }

  lemma CpuKept(s: State, m: Step, c: nat)
    requires Inv(s) && Enabled(s, m) && c < |s.cpus| && !Panics(s, m)
    ensures CpuOk(Do(s, m), c)
  {
    assert CpuOk(s, m.c) && CpuOk(s, c) && (c != m.c ==> s.cpus[c].thread != s.cpus[m.c].thread);
    if m.Resume? { assert ThreadOk(s, m.t); }
  }

  /** None of the panics happens, and every step keeps the invariant. */
  lemma InvStep(s: State, m: Step)
    requires Inv(s) && Enabled(s, m)
    ensures !Panics(s, m) && Inv(Do(s, m))
  {
    NoPanic(s, m);
    var r := Do(s, m);
    forall c | 0 <= c < |r.cpus| ensures CpuOk(r, c) { CpuKept(s, m, c); }
    assert CpuOk(s, m.c);
    forall t | 0 <= t < |r.threads| ensures ThreadOk(r, t) {
      assert ThreadOk(s, t);
    }
    forall c, d | 0 <= c < d < |r.cpus| ensures r.cpus[c].thread != r.cpus[d].thread {
      assert CpuOk(s, c) && CpuOk(s, d) && s.cpus[c].thread != s.cpus[d].thread;
    }
  }

  lemma {:induction false} ExecKeeps(s: State, steps: seq<Step>)
    requires Inv(s) && Possible(s, steps)
    ensures Inv(Exec(s, steps))
    decreases |steps|
  {
    if steps != [] {
      InvStep(s, steps[0]);
      ExecKeeps(Do(s, steps[0]), steps[1..]);
    }
  }

  /** In every interleaving: inside pushcli interrupts are off, so that neither popcli nor sched finds them on, and
      neither panics; and when a process undoes its outermost pushcli, the flag is again as the process found it,
      even if it was switched out in between and goes on on another CPU. */
  lemma FlagRestored(ncpu: nat, nproc: nat, steps: seq<Step>, c: nat)
    requires Possible(Start(ncpu, nproc), steps) && c < ncpu
    ensures var s := Exec(Start(ncpu, nproc), steps);
            && c < |s.cpus| && s.cpus[c].thread < |s.threads|
            && (s.cpus[c].ncli > 0 ==> !s.cpus[c].flag)
            && (Enabled(s, Pop(c)) ==> !Panics(s, Pop(c))) && (Enabled(s, Leave(c)) ==> !Panics(s, Leave(c)))
            && (s.cpus[c].thread >= ncpu && s.cpus[c].ncli == 1 ==>
                  !Panics(s, Pop(c)) && Do(s, Pop(c)).cpus[c].flag == s.threads[s.cpus[c].thread].was)
  {
    var s0 := Start(ncpu, nproc);
    forall x | 0 <= x < ncpu ensures CpuOk(s0, x) {}
    ExecKeeps(s0, steps);
    ExecSize(s0, steps);
    var s := Exec(s0, steps);
    assert CpuOk(s, c);
  }

  lemma {:induction false} ExecSize(s: State, steps: seq<Step>)
    requires Possible(s, steps)
    ensures |Exec(s, steps).cpus| == |s.cpus|
    decreases |steps|
  {
    if steps != [] { ExecSize(Do(s, steps[0]), steps[1..]); }
  }

  // ---------------------------------------------------------------- the code

  /** struct cpu and its eflags. */
  class CpuState {
    var ncli: int
    var intena: bool
    var flag: bool

    constructor ()
      ensures ncli == 0 && !flag
    {
      ncli, intena, flag := 0, false, false;
    }

    method Pushcli()
      requires ncli >= 0
      modifies this
      ensures !flag && ncli == old(ncli) + 1
      ensures intena == if old(ncli) == 0 then old(flag) else old(intena)
    {
      var eflags := flag;
      flag := false;
      if ncli == 0 { intena := eflags; }
      ncli := ncli + 1;
    }

    /** false is a panic. */
    method Popcli() returns (ok: bool)
      requires ncli >= 0
      modifies this
      ensures ok <==> !old(flag) && old(ncli) > 0
      ensures ok ==> ncli == old(ncli) - 1 && intena == old(intena) && flag == (ncli == 0 && intena)
    {
      if flag { return false; }
      ncli := ncli - 1;
      if ncli < 0 { return false; }
      if ncli == 0 && intena { flag := true; }
      ok := true;
    }
  }
}
