/** What proc.c's sleep, wakeup and kill do to the process table, in its fields: one call of each, every step of the
    machine, and whole runs. */
module Sleepers {
  import opened Common
  import opened Scheduler

  /** What a step may use of the invariant. */
  lemma Facts(s: State, c: nat)
    requires Inv(s)
    ensures INIT < |s.procs|
    ensures forall p | 0 <= p < |s.procs| :: SlotOk(p, s.procs[p])
    ensures Ready(s, c) ==> CpuOk(s, c) && ForkOk(s, Running(s, c))
  {
    hide Pids, History, Jobs;
  }

  // ---------------------------------------------------------------- one call

  /** sleep(chan, lk) by the process CPU c runs: it gives up lk and is SLEEPING on that channel; no other process
      changes. */
  lemma SleepCall(s: State, c: nat, id: int)
    requires Inv(s) && Enabled(s, c, Call(SleepJob(id)))
    ensures var s1 := Do(s, c, Call(SleepJob(id)));
            Enabled(s1, c, Cont) &&
            var p, r := Running(s, c), Do(s1, c, Cont);
            && r.procs == s.procs[p := r.procs[p]]
            && r.procs[p].state == SLEEPING && r.procs[p].chan == Other(id)
            && r.procs[p].pid == s.procs[p].pid && r.procs[p].killed == s.procs[p].killed
            && r.procs[p].parent == s.procs[p].parent
            && s.procs[p].pc.Spins() == 1 && r.procs[p].pc == Leaving(Slept)
            && r.lock == Some(c) && r.cpus[c].ncli == 1
  {
    hide Inv;
    Facts(s, c);
  }

  /** wakeup(chan): exactly the processes asleep on that channel become RUNNABLE. */
  lemma WakeupCall(s: State, c: nat, chan: Chan)
    requires Inv(s) && Enabled(s, c, Call(WakeJob(chan)))
    ensures var s1 := Do(s, c, Call(WakeJob(chan)));
            Enabled(s1, c, Cont) &&
            var p, r := Running(s, c), Do(s1, c, Cont);
            r.procs[p].pc.Done? && WakeupDone(s.procs, r.procs[p := r.procs[p].(pc := s.procs[p].pc)], chan)
  {
    hide Inv;
    Facts(s, c);
  }

  /** kill(pid): the first process with this pid is killed, and RUNNABLE if it was asleep. */
  lemma KillCall(s: State, c: nat, pid: nat)
    requires Inv(s) && Enabled(s, c, Call(KillJob(pid)))
    ensures var s1 := Do(s, c, Call(KillJob(pid)));
            Enabled(s1, c, Cont) &&
            var p, r := Running(s, c), Do(s1, c, Cont);
            r.procs[p].pc.Done? && KillDone(s.procs, r.procs[p := r.procs[p].(pc := s.procs[p].pc)], pid)
  {
    hide Inv;
    Facts(s, c);
    var s1 := Do(s, c, Call(KillJob(pid)));
    var p := Running(s, c);
    forall q | 0 <= q < |s.procs| ensures FirstWith(s1.procs, pid, q) == FirstWith(s.procs, pid, q) {
      assert forall x | 0 <= x < |s.procs| :: s1.procs[x].pid == s.procs[x].pid;
    }
  }

  // ---------------------------------------------------------------- every step

  /** The step kills process p. */
  predicate Kills(s: State, c: nat, a: Act, p: nat) {
    && a.Cont? && Ready(s, c) && s.procs[Running(s, c)].pc.KillCs?
    && FirstWith(s.procs, s.procs[Running(s, c)].pc.pid, p)
  }

  /** The step wakes those who sleep on chan: wakeup by a process or by an interrupt handler, exit telling the
      parent, or exit telling init that it has inherited a zombie. */
  predicate Signals(s: State, c: nat, a: Act, chan: Chan) {
    match a
    case Irq(on) => on == chan
    case Cont =>
      Ready(s, c) &&
      var p := Running(s, c);
      (match s.procs[p].pc
       case WakeCs(on, _) => on == chan
       case ExitCs => s.procs[p].parent.Some? && chan == OfProc(s.procs[p].parent.value)
       case ExitScan(i) =>
         i < |s.procs| && s.procs[i].parent == Some(p) && s.procs[i].state == ZOMBIE && chan == OfProc(INIT)
       case _ => false)
    case _ => false
  }

  predicate Rouses(s: State, c: nat, a: Act, p: nat)
    requires p < |s.procs|
  {
    Kills(s, c, a, p) || Signals(s, c, a, s.procs[p].chan)
  }

  /** The step puts process p to sleep on chan: sleep with the channel it was called for, or wait on the caller
      itself, when it has children, none of them a zombie, and was not killed. */
  predicate GoesToSleep(s: State, c: nat, a: Act, p: nat, chan: Chan) {
    && a.Cont? && Ready(s, c) && Running(s, c) == p
    && match s.procs[p].pc
       case SleepCs(id) => chan == Other(id)
       case WaitScan(i, kids) => i >= |s.procs| && kids && !s.procs[p].killed && chan == OfProc(p)
       case _ => false
  }

  /** A sleeping process becomes RUNNABLE exactly when it is signalled or killed; otherwise it sleeps on, on the
      same channel. It is killed exactly by kill. */
  lemma SleeperStep(s: State, c: nat, a: Act, p: nat)
    requires Inv(s) && Enabled(s, c, a) && p < |s.procs| && s.procs[p].state == SLEEPING
    ensures INIT < |s.procs| && |Do(s, c, a).procs| == |s.procs|
    ensures var x, y := s.procs[p], Do(s, c, a).procs[p];
            && y.state == (if Rouses(s, c, a, p) then RUNNABLE else SLEEPING)
            && y.chan == x.chan && y.pid == x.pid && y.killed == (x.killed || Kills(s, c, a, p))
  {
    hide Inv, DoCont;
    Facts(s, c);
    if a.Cont? { SleeperCont(s, c, p); }
  }

  /** What a step of the process CPU c runs does to a process asleep. */
  ghost predicate SleeperDone(s: State, c: nat, p: nat, y: Proc)
    requires p < |s.procs|
  {
    var x := s.procs[p];
    && y.state == (if Rouses(s, c, Cont, p) then RUNNABLE else SLEEPING)
    && y.chan == x.chan && y.pid == x.pid && y.killed == (x.killed || Kills(s, c, Cont, p))
  }

  lemma SleeperCont(s: State, c: nat, p: nat)
    requires Enabled(s, c, Cont) && INIT < |s.procs| && p < |s.procs| && s.procs[p].state == SLEEPING
    requires SlotOk(p, s.procs[p]) && SlotOk(Running(s, c), s.procs[Running(s, c)]) && ForkOk(s, Running(s, c))
    ensures |DoCont(s, c).procs| == |s.procs| && SleeperDone(s, c, p, DoCont(s, c).procs[p])
  {
    hide DoKill, FirstWith, DoWake, DoExit, DoExitWake;
    var run := Running(s, c);
    var pc := s.procs[run].pc;
    if pc.KillCs? {
      KilledAsleep(s, run, p, pc);
    } else if pc.WakeCs? {
      WokenAsleep(s, c, p);
    } else if pc.ExitCs? {
      ParentAsleep(s, c, p);
    } else if pc.ExitScan? {
      InitAsleep(s, c, p);
    }
  }

  lemma WokenAsleep(s: State, c: nat, p: nat)
    requires Enabled(s, c, Cont) && p < |s.procs| && s.procs[p].state == SLEEPING && s.procs[Running(s, c)].pc.WakeCs?
    requires p != Running(s, c)
    ensures var pc := s.procs[Running(s, c)].pc; var r := DoWake(s, Running(s, c), pc.chan, pc.depth);
            |r.procs| == |s.procs| && SleeperDone(s, c, p, r.procs[p])
  {
  }

  lemma ParentAsleep(s: State, c: nat, p: nat)
    requires Enabled(s, c, Cont) && p < |s.procs| && s.procs[p].state == SLEEPING && s.procs[Running(s, c)].pc.ExitCs?
    requires p != Running(s, c)
    ensures var r := DoExitWake(s, Running(s, c));
            |r.procs| == |s.procs| && SleeperDone(s, c, p, r.procs[p])
  {
  }

  lemma InitAsleep(s: State, c: nat, p: nat)
    requires Enabled(s, c, Cont) && INIT < |s.procs| && p < |s.procs| && s.procs[p].state == SLEEPING
    requires s.procs[Running(s, c)].pc.ExitScan? && p != Running(s, c)
    ensures var r := DoExit(s, Running(s, c), s.procs[Running(s, c)].pc.i);
            |r.procs| == |s.procs| && SleeperDone(s, c, p, r.procs[p])
  {
  }

  lemma KilledAsleep(s: State, run: nat, p: nat, pc: Pc)
    requires run < |s.procs| && p < |s.procs| && run != p && pc.KillCs? && s.procs[p].state == SLEEPING
    ensures var x, y := s.procs[p], DoKill(s, run, pc.pid, pc.depth).procs[p];
            && y == x.(state := y.state, killed := y.killed)
            && y.state == (if FirstWith(s.procs, pc.pid, p) then RUNNABLE else SLEEPING)
            && y.killed == (x.killed || FirstWith(s.procs, pc.pid, p))
    ensures |DoKill(s, run, pc.pid, pc.depth).procs| == |s.procs|
  {
  }

  /** A process that was not asleep is asleep after a step exactly if the step put it to sleep. */
  lemma FallsAsleepIff(s: State, c: nat, a: Act, p: nat, chan: Chan)
    requires Inv(s) && Enabled(s, c, a) && p < |s.procs| && s.procs[p].state != SLEEPING
    ensures INIT < |s.procs| && |Do(s, c, a).procs| == |s.procs|
    ensures SleepsOn(Do(s, c, a).procs[p], chan) <==> GoesToSleep(s, c, a, p, chan)
  {
    hide Inv, DoCont;
    Facts(s, c);
    if a.Cont? { FallsAsleepCont(s, c, p, chan); }
  }

  lemma FallsAsleepCont(s: State, c: nat, p: nat, chan: Chan)
    requires Inv(s) && Enabled(s, c, Cont) && p < |s.procs| && s.procs[p].state != SLEEPING
    ensures INIT < |s.procs| && |DoCont(s, c).procs| == |s.procs|
    ensures SleepsOn(DoCont(s, c).procs[p], chan) <==> GoesToSleep(s, c, Cont, p, chan)
  {
    hide Inv, DoKill, DoWake, DoExit, DoExitWake, DoAlloc, DoPublish;
    Facts(s, c);
    var run := Running(s, c);
    var pc := s.procs[run].pc;
    if pc.KillCs? || pc.WakeCs? || pc.ExitScan? || pc.ExitCs? {
      OthersWoken(s, run, p);
    } else if pc.AllocScan? || pc.PublishCs? {
      SlotsTaken(s, run, p);
    }
  }

  lemma OthersWoken(s: State, run: nat, p: nat)
    requires INIT < |s.procs| && run < |s.procs| && p < |s.procs| && s.procs[p].state != SLEEPING
    requires var pc := s.procs[run].pc; pc.KillCs? || pc.WakeCs? || pc.ExitScan? || pc.ExitCs?
    ensures var pc := s.procs[run].pc;
            var r := if pc.KillCs? then DoKill(s, run, pc.pid, pc.depth)
                     else if pc.WakeCs? then DoWake(s, run, pc.chan, pc.depth)
                     else if pc.ExitScan? then DoExit(s, run, pc.i) else DoExitWake(s, run);
            |r.procs| == |s.procs| && r.procs[p].state != SLEEPING
  {
    hide FirstWith;
  }

  lemma SlotsTaken(s: State, run: nat, p: nat)
    requires run < |s.procs| && p < |s.procs| && s.procs[p].state != SLEEPING
    requires s.procs[run].pc.AllocScan? || s.procs[run].pc.PublishCs?
    ensures var r := if s.procs[run].pc.AllocScan? then DoAlloc(s, run, s.procs[run].pc.i) else DoPublish(s, run);
            |r.procs| == |s.procs| && r.procs[p].state != SLEEPING
  {
  }

  // ---------------------------------------------------------------- whole runs

  /** The states of a run, the first and the last included. */
  function States(s: State, moves: seq<Move>): (r: seq<State>)
    requires INIT < |s.procs| && Possible(s, moves)
    ensures |r| == |moves| + 1 && r[0] == s && r[|moves|] == Exec(s, moves)
    decreases |moves|
  {
    if moves == [] then [s] else [s] + States(Do(s, moves[0].cpu, moves[0].act), moves[1..])
  }

  /** From move k on, nobody rouses process p. */
  ghost predicate Undisturbed(s: State, moves: seq<Move>, p: nat, k: nat)
    requires INIT < |s.procs| && Possible(s, moves)
  {
    forall i | k <= i < |moves| ::
      var t := States(s, moves)[i];
      p < |t.procs| && !Rouses(t, moves[i].cpu, moves[i].act, p)
  }

  /** Move j puts process p to sleep on chan, and no later move rouses it. */
  ghost predicate AsleepSince(s: State, moves: seq<Move>, p: nat, chan: Chan, j: nat)
    requires INIT < |s.procs| && Possible(s, moves)
  {
    && j < |moves| && GoesToSleep(States(s, moves)[j], moves[j].cpu, moves[j].act, p, chan)
    && Undisturbed(s, moves, p, j + 1)
  }

  /** A process asleep at the end of a run was asleep all along, undisturbed, or went to sleep in the run. */
  lemma {:induction false} AsleepFrom(s: State, moves: seq<Move>, p: nat)
    requires Inv(s) && INIT < |s.procs| && Possible(s, moves) && p < |s.procs|
    requires p < |Exec(s, moves).procs| && Exec(s, moves).procs[p].state == SLEEPING
    ensures var chan := Exec(s, moves).procs[p].chan;
            || (SleepsOn(s.procs[p], chan) && Undisturbed(s, moves, p, 0))
            || exists j: nat :: AsleepSince(s, moves, p, chan, j)
    decreases |moves|
  {
    hide Inv, Do, Rouses, GoesToSleep;
    if moves != [] {
      var c, a, rest := moves[0].cpu, moves[0].act, moves[1..];
      var r := Do(s, c, a);
      InvStep(s, c, a);
      var chan := Exec(s, moves).procs[p].chan;
      if s.procs[p].state == SLEEPING { SleeperStep(s, c, a, p); } else { FallsAsleepIff(s, c, a, p, chan); }
      AsleepFrom(r, rest, p);
      assert forall i | 1 <= i <= |moves| :: States(s, moves)[i] == States(r, rest)[i - 1];
      if j: nat :| AsleepSince(r, rest, p, chan, j) {
        Later(s, moves, p, j + 1);
        assert AsleepSince(s, moves, p, chan, j + 1);
      } else {
        Later(s, moves, p, 0);
        if s.procs[p].state != SLEEPING { assert AsleepSince(s, moves, p, chan, 0); }
      }
    }
  }

  lemma Later(s: State, moves: seq<Move>, p: nat, k: nat)
    requires INIT < |s.procs| && moves != [] && Possible(s, moves)
    requires var r := Do(s, moves[0].cpu, moves[0].act); INIT < |r.procs| && Undisturbed(r, moves[1..], p, k)
    ensures Undisturbed(s, moves, p, k + 1)
  {
    hide Rouses, Do;
    var r := Do(s, moves[0].cpu, moves[0].act);
    forall i | k + 1 <= i < |moves|
      ensures p < |States(s, moves)[i].procs| && !Rouses(States(s, moves)[i], moves[i].cpu, moves[i].act, p)
    {
      assert States(s, moves)[i] == States(r, moves[1..])[i - 1] && moves[i] == moves[1..][i - 1];
    }
  }

  lemma SameCount(s: State, c: nat, a: Act)
    requires Inv(s) && Enabled(s, c, a)
    ensures INIT < |s.procs| && |Do(s, c, a).procs| == |s.procs|
  {
    hide Inv;
    Facts(s, c);
  }

  lemma {:induction false} ExecCount(s: State, moves: seq<Move>)
    requires Inv(s) && INIT < |s.procs| && Possible(s, moves)
    ensures |Exec(s, moves).procs| == |s.procs|
    decreases |moves|
  {
    hide Inv, Do;
    if moves != [] {
      InvStep(s, moves[0].cpu, moves[0].act);
      SameCount(s, moves[0].cpu, moves[0].act);
      ExecCount(Do(s, moves[0].cpu, moves[0].act), moves[1..]);
    }
  }

  /** Nobody sleeps through a wakeup or a kill: on every run, whoever is asleep went to sleep, on the channel it is
      on, after the last wakeup of that channel and after it was last killed. */
  lemma NoWakeupSleptThrough(ncpu: nat, nproc: nat, moves: seq<Move>, p: nat)
    requires INIT < nproc && Possible(Start(ncpu, nproc), moves)
    requires var s := Exec(Start(ncpu, nproc), moves); p < |s.procs| && s.procs[p].state == SLEEPING
    ensures exists j: nat :: AsleepSince(Start(ncpu, nproc), moves, p, Exec(Start(ncpu, nproc), moves).procs[p].chan, j)
  {
    hide Inv, Exec, Possible, AsleepSince;
    StartInv(ncpu, nproc);
    ExecCount(Start(ncpu, nproc), moves);
    AsleepFrom(Start(ncpu, nproc), moves, p);
  }

  /** No killed process is asleep in wait. */
  ghost predicate WaitersUnkilled(s: State) {
    forall p | 0 <= p < |s.procs| && SleepsOn(s.procs[p], OfProc(p)) :: !s.procs[p].killed
  }

  lemma WaitersUnkilledStep(s: State, c: nat, a: Act)
    requires Inv(s) && WaitersUnkilled(s) && Enabled(s, c, a)
    ensures INIT < |s.procs| && WaitersUnkilled(Do(s, c, a))
  {
    hide Inv, Do;
    SameCount(s, c, a);
    var r := Do(s, c, a);
    forall p | 0 <= p < |r.procs| && SleepsOn(r.procs[p], OfProc(p)) ensures !r.procs[p].killed {
      if s.procs[p].state == SLEEPING {
        SleeperStep(s, c, a, p);
      } else {
        FallsAsleepIff(s, c, a, p, OfProc(p));
        WaitSleeper(s, c, a, p);
      }
    }
  }

  lemma WaitSleeper(s: State, c: nat, a: Act, p: nat)
    requires Inv(s) && Enabled(s, c, a) && p < |s.procs| && GoesToSleep(s, c, a, p, OfProc(p))
    ensures INIT < |s.procs| && p < |Do(s, c, a).procs| && !Do(s, c, a).procs[p].killed
  {
    hide Inv;
    Facts(s, c);
  }

  lemma {:induction false} WaitersUnkilledExec(s: State, moves: seq<Move>)
    requires Inv(s) && WaitersUnkilled(s) && INIT < |s.procs| && Possible(s, moves)
    ensures WaitersUnkilled(Exec(s, moves))
    decreases |moves|
  {
    hide Inv, Do;
    if moves != [] {
      InvStep(s, moves[0].cpu, moves[0].act);
      WaitersUnkilledStep(s, moves[0].cpu, moves[0].act);
      WaitersUnkilledExec(Do(s, moves[0].cpu, moves[0].act), moves[1..]);
    }
  }

  /** kill reaches wait: in every interleaving no killed process is asleep in wait. */
  lemma KilledNeverWaits(ncpu: nat, nproc: nat, moves: seq<Move>, p: nat)
    requires INIT < nproc && Possible(Start(ncpu, nproc), moves)
    requires var s := Exec(Start(ncpu, nproc), moves); p < |s.procs| && SleepsOn(s.procs[p], OfProc(p))
    ensures !Exec(Start(ncpu, nproc), moves).procs[p].killed
  {
    StartInv(ncpu, nproc);
    hide Inv, Exec, Possible;
    WaitersUnkilledExec(Start(ncpu, nproc), moves);
  }
}
