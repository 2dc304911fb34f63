/** Whom proc.c's kill kills: kill does not test the state of the slot it finds, and allocproc does not clear the
    flag, so that a kill of a free slot reaches the next process that gets it. */
module Kills {
  import opened Common
  import opened Scheduler
  import opened Sleepers

  predicate InUse(x: Proc) { x.state != UNUSED }

  /** wait reaps the zombie in slot p. */
  predicate Reaps(s: State, c: nat, a: Act, p: nat)
    requires p < |s.procs|
  {
    && a.Cont? && Ready(s, c) && s.procs[Running(s, c)].pc.WaitScan? && s.procs[Running(s, c)].pc.i == p
    && s.procs[p].parent == Some(Running(s, c)) && s.procs[p].state == ZOMBIE
  }

  /** fork fails and gives slot p back. */
  predicate Fails(s: State, c: nat, a: Act, p: nat) {
    a.Fail? && Ready(s, c) && s.procs[Running(s, c)].fork == Embryo(p)
  }

  predicate Frees(s: State, c: nat, a: Act, p: nat)
    requires p < |s.procs|
  {
    Reaps(s, c, a, p) || Fails(s, c, a, p)
  }

  /** allocproc takes slot p. */
  predicate Takes(s: State, c: nat, a: Act, p: nat)
    requires p < |s.procs|
  {
    && a.Cont? && Ready(s, c) && s.procs[Running(s, c)].pc == AllocScan(p) && s.procs[p].state == UNUSED
  }

  // ---------------------------------------------------------------- every step

  /** A slot is taken by allocproc, with a new pid, and freed by wait or a failing fork, and otherwise stays in use
      or free with its pid. The flag is set exactly by kill of its pid, and cleared exactly by wait. */
  lemma SlotStep(s: State, c: nat, a: Act, p: nat)
    requires Inv(s) && Enabled(s, c, a) && p < |s.procs|
    ensures INIT < |s.procs| && |Do(s, c, a).procs| == |s.procs|
    ensures var x, y := s.procs[p], Do(s, c, a).procs[p];
            && (InUse(y) <==> (InUse(x) && !Frees(s, c, a, p)) || Takes(s, c, a, p))
            && (Frees(s, c, a, p) ==> InUse(x))
            && y.pid == (if Takes(s, c, a, p) then s.nextpid else if Reaps(s, c, a, p) then 0 else x.pid)
            && y.killed == ((x.killed && !Reaps(s, c, a, p)) || Kills(s, c, a, p))
  {
    hide Inv, DoCont;
    Facts(s, c);
    if a.Cont? { SlotCont(s, c, p); }
    if a.Fail? { FailedInUse(s, c); }
  }

  lemma FailedInUse(s: State, c: nat)
    requires Inv(s) && Enabled(s, c, Fail)
    ensures var np := s.procs[Running(s, c)].fork.child;
            np < |s.procs| && np != Running(s, c) && InUse(s.procs[np])
  {
    hide Inv;
    Facts(s, c);
  }

  /** What the routines do to slot p. */
  ghost predicate SlotDone(s: State, c: nat, p: nat, y: Proc)
    requires p < |s.procs|
  {
    var x := s.procs[p];
    && (InUse(y) <==> (InUse(x) && !Reaps(s, c, Cont, p)) || Takes(s, c, Cont, p))
    && y.pid == (if Takes(s, c, Cont, p) then s.nextpid else if Reaps(s, c, Cont, p) then 0 else x.pid)
    && y.killed == ((x.killed && !Reaps(s, c, Cont, p)) || Kills(s, c, Cont, p))
  }

  lemma SlotCont(s: State, c: nat, p: nat)
    requires Enabled(s, c, Cont) && INIT < |s.procs| && p < |s.procs|
    requires SlotOk(p, s.procs[p]) && SlotOk(Running(s, c), s.procs[Running(s, c)]) && ForkOk(s, Running(s, c))
    ensures |DoCont(s, c).procs| == |s.procs| && SlotDone(s, c, p, DoCont(s, c).procs[p])
  {
    hide DoKill, DoWait, DoAlloc, DoExit, SlotDone;
    var run := Running(s, c);
    var pc := s.procs[run].pc;
    if pc.KillCs? {
      KillSlot(s, c, p);
    } else if pc.WaitScan? {
      WaitSlot(s, c, p);
    } else if pc.AllocScan? {
      AllocSlot(s, c, p);
    } else if pc.ExitScan? {
      ExitSlot(s, c, p);
    } else {
      OtherSlot(s, c, p);
    }
  }

  lemma KillSlot(s: State, c: nat, p: nat)
    requires Enabled(s, c, Cont) && p < |s.procs| && s.procs[Running(s, c)].pc.KillCs?
    ensures var pc := s.procs[Running(s, c)].pc;
            var r := DoKill(s, Running(s, c), pc.pid, pc.depth);
            |r.procs| == |s.procs| && SlotDone(s, c, p, r.procs[p])
  {
  }

  lemma WaitSlot(s: State, c: nat, p: nat)
    requires Enabled(s, c, Cont) && p < |s.procs| && s.procs[Running(s, c)].pc.WaitScan?
    requires SlotOk(p, s.procs[p]) && SlotOk(Running(s, c), s.procs[Running(s, c)])
    ensures var pc := s.procs[Running(s, c)].pc;
            var r := DoWait(s, Running(s, c), pc.i, pc.kids);
            |r.procs| == |s.procs| && SlotDone(s, c, p, r.procs[p])
  {
  }

  lemma AllocSlot(s: State, c: nat, p: nat)
    requires Enabled(s, c, Cont) && p < |s.procs| && s.procs[Running(s, c)].pc.AllocScan?
    requires SlotOk(p, s.procs[p]) && SlotOk(Running(s, c), s.procs[Running(s, c)])
    ensures var r := DoAlloc(s, Running(s, c), s.procs[Running(s, c)].pc.i);
            |r.procs| == |s.procs| && SlotDone(s, c, p, r.procs[p])
  {
  }

  lemma ExitSlot(s: State, c: nat, p: nat)
    requires Enabled(s, c, Cont) && INIT < |s.procs| && p < |s.procs| && s.procs[Running(s, c)].pc.ExitScan?
    requires SlotOk(p, s.procs[p]) && SlotOk(Running(s, c), s.procs[Running(s, c)])
    ensures var r := DoExit(s, Running(s, c), s.procs[Running(s, c)].pc.i);
            |r.procs| == |s.procs| && SlotDone(s, c, p, r.procs[p])
  {
  }

  predicate SameProc(x: Proc, y: Proc) { y.pid == x.pid && y.killed == x.killed && (InUse(y) <==> InUse(x)) }

  lemma OtherSlot(s: State, c: nat, p: nat)
    requires Enabled(s, c, Cont) && INIT < |s.procs| && p < |s.procs|
    requires SlotOk(p, s.procs[p]) && SlotOk(Running(s, c), s.procs[Running(s, c)]) && ForkOk(s, Running(s, c))
    requires var pc := s.procs[Running(s, c)].pc; !pc.KillCs? && !pc.WaitScan? && !pc.AllocScan? && !pc.ExitScan?
    ensures |DoCont(s, c).procs| == |s.procs| && SlotDone(s, c, p, DoCont(s, c).procs[p])
  {
    hide FirstWith, DoWake, DoExitWake, DoPublish;
    var run := Running(s, c);
    var pc := s.procs[run].pc;
    if pc.WakeCs? {
      WakeSame(s, run, p);
    } else if pc.ExitCs? {
      ExitSame(s, run, p);
    } else if pc.PublishCs? {
      PublishSame(s, run, p);
    } else {
      RestSame(s, c, p);
    }
  }

  lemma WakeSame(s: State, run: nat, p: nat)
    requires run < |s.procs| && p < |s.procs| && s.procs[run].pc.WakeCs?
    ensures var pc := s.procs[run].pc; var r := DoWake(s, run, pc.chan, pc.depth);
            |r.procs| == |s.procs| && SameProc(s.procs[p], r.procs[p])
  {
  }

  lemma ExitSame(s: State, run: nat, p: nat)
    requires run < |s.procs| && p < |s.procs|
    ensures |DoExitWake(s, run).procs| == |s.procs| && SameProc(s.procs[p], DoExitWake(s, run).procs[p])
  {
  }

  lemma PublishSame(s: State, run: nat, p: nat)
    requires run < |s.procs| && p < |s.procs| && ForkOk(s, run)
    ensures |DoPublish(s, run).procs| == |s.procs| && SameProc(s.procs[p], DoPublish(s, run).procs[p])
  {
  }

  lemma RestSame(s: State, c: nat, p: nat)
    requires Enabled(s, c, Cont) && INIT < |s.procs| && p < |s.procs|
    requires SlotOk(Running(s, c), s.procs[Running(s, c)])
    requires var pc := s.procs[Running(s, c)].pc;
             pc.YieldCs? || pc.SleepCs? || pc.Done? || pc.Leaving? || pc.Back?
    ensures |DoCont(s, c).procs| == |s.procs| && SameProc(s.procs[p], DoCont(s, c).procs[p])
  {
    hide DoKill, DoWait, DoAlloc, DoExit, DoWake, DoExitWake, DoPublish;
  }

  // ---------------------------------------------------------------- the flag of free slots

  /** No free slot carries the flag. */
  ghost predicate Clean(s: State) {
    forall p | 0 <= p < |s.procs| && !InUse(s.procs[p]) :: !s.procs[p].killed
  }

  /** The step leaves the flag on a free slot: kill finds its pid there, or fork fails after its child was killed. */
  predicate Stray(s: State, c: nat, a: Act, p: nat)
    requires p < |s.procs|
  {
    if InUse(s.procs[p]) then Fails(s, c, a, p) && s.procs[p].killed else Kills(s, c, a, p)
  }

  /** A step leaves no flag on free slots exactly when it is neither of these. */
  lemma CleanStepIff(s: State, c: nat, a: Act)
    requires Inv(s) && Enabled(s, c, a) && Clean(s)
    ensures INIT < |s.procs|
    ensures Clean(Do(s, c, a)) <==> forall p | 0 <= p < |s.procs| :: !Stray(s, c, a, p)
  {
    hide Inv, Do, Kills, Fails;
    SameCount(s, c, a);
    forall p | 0 <= p < |s.procs|
      ensures !InUse(Do(s, c, a).procs[p]) && Do(s, c, a).procs[p].killed <==> Stray(s, c, a, p)
    {
      SlotStep(s, c, a, p);
      NotBoth(s, c, a, p);
    }
  }

  lemma NotBoth(s: State, c: nat, a: Act, p: nat)
    requires p < |s.procs|
    ensures !(Kills(s, c, a, p) && (Takes(s, c, a, p) || Fails(s, c, a, p) || Reaps(s, c, a, p)))
    ensures Takes(s, c, a, p) ==> !InUse(s.procs[p])
    ensures !(Fails(s, c, a, p) && Reaps(s, c, a, p))
  {
  }

  // ---------------------------------------------------------------- whole runs

  /** Move j kills the process in slot p, whose flag wait does not clear from then on. */
  ghost predicate FlaggedSince(s: State, moves: seq<Move>, p: nat, j: nat)
    requires INIT < |s.procs| && Possible(s, moves)
  {
    && j < |moves| && Kills(States(s, moves)[j], moves[j].cpu, moves[j].act, p)
    && NeverReaped(s, moves, p, j)
  }

  ghost predicate NeverReaped(s: State, moves: seq<Move>, p: nat, k: nat)
    requires INIT < |s.procs| && Possible(s, moves)
  {
    forall i | k <= i < |moves| :: NotReapedAt(s, moves, p, i)
  }

  predicate NotReapedAt(s: State, moves: seq<Move>, p: nat, i: nat)
    requires INIT < |s.procs| && Possible(s, moves) && i < |moves|
  {
    p < |States(s, moves)[i].procs| && !Reaps(States(s, moves)[i], moves[i].cpu, moves[i].act, p)
  }

  /** The states of a run after its first move. */
  lemma StatesRest(s: State, moves: seq<Move>, i: nat)
    requires INIT < |s.procs| && moves != [] && Possible(s, moves) && 1 <= i <= |moves|
    ensures States(s, moves)[i] == States(Do(s, moves[0].cpu, moves[0].act), moves[1..])[i - 1]
  {
    hide Do, Enabled;
    assert States(s, moves) == [s] + States(Do(s, moves[0].cpu, moves[0].act), moves[1..]);
  }

  lemma NotReapedRest(s: State, moves: seq<Move>, p: nat, i: nat)
    requires INIT < |s.procs| && moves != [] && Possible(s, moves) && 1 <= i < |moves|
    ensures NotReapedAt(s, moves, p, i) <==>
            NotReapedAt(Do(s, moves[0].cpu, moves[0].act), moves[1..], p, i - 1)
  {
    hide Do, Reaps, States;
    StatesRest(s, moves, i);
    assert moves[i] == moves[1..][i - 1];
  }

  lemma ReapedLater(s: State, moves: seq<Move>, p: nat, k: nat)
    requires INIT < |s.procs| && moves != [] && Possible(s, moves)
    ensures NeverReaped(s, moves, p, k + 1) <==> NeverReaped(Do(s, moves[0].cpu, moves[0].act), moves[1..], p, k)
  {
    hide Do, NotReapedAt;
    var r, rest := Do(s, moves[0].cpu, moves[0].act), moves[1..];
    forall i | k <= i < |rest| ensures NotReapedAt(s, moves, p, i + 1) <==> NotReapedAt(r, rest, p, i) {
      NotReapedRest(s, moves, p, i + 1);
    }
    assert forall i | k + 1 <= i < |moves| :: NotReapedAt(s, moves, p, i) <==> NotReapedAt(r, rest, p, i - 1);
  }

  lemma FlaggedLater(s: State, moves: seq<Move>, p: nat, j: nat)
    requires INIT < |s.procs| && moves != [] && Possible(s, moves)
    ensures FlaggedSince(s, moves, p, j + 1) <==>
            FlaggedSince(Do(s, moves[0].cpu, moves[0].act), moves[1..], p, j)
  {
    hide Do, Kills, NeverReaped, States;
    ReapedLater(s, moves, p, j);
    if j + 1 < |moves| { StatesRest(s, moves, j + 1); }
  }

  lemma ReapedNow(s: State, moves: seq<Move>, p: nat)
    requires INIT < |s.procs| && p < |s.procs| && moves != [] && Possible(s, moves)
    ensures NeverReaped(s, moves, p, 0) <==>
            !Reaps(s, moves[0].cpu, moves[0].act, p) && NeverReaped(s, moves, p, 1)
    ensures FlaggedSince(s, moves, p, 0) <==>
            Kills(s, moves[0].cpu, moves[0].act, p) && NeverReaped(s, moves, p, 0)
  {
    hide Do, Kills, Reaps;
    assert NotReapedAt(s, moves, p, 0) <==> !Reaps(s, moves[0].cpu, moves[0].act, p);
  }

  lemma {:induction false} FlaggedFrom(s: State, moves: seq<Move>, p: nat)
    requires Inv(s) && INIT < |s.procs| && Possible(s, moves) && p < |s.procs|
    ensures p < |Exec(s, moves).procs|
    ensures Exec(s, moves).procs[p].killed <==>
            (s.procs[p].killed && NeverReaped(s, moves, p, 0)) || exists j: nat :: FlaggedSince(s, moves, p, j)
    decreases |moves|
  {
    hide Inv, Do, Kills, Reaps, Takes, Fails, NeverReaped, FlaggedSince;
    if moves == [] {
      NoMoves(s, p);
    } else {
      var c, a, rest := moves[0].cpu, moves[0].act, moves[1..];
      var r := Do(s, c, a);
      InvStep(s, c, a);
      SlotStep(s, c, a, p);
      NotBoth(s, c, a, p);
      FlaggedFrom(r, rest, p);
      ReapedLater(s, moves, p, 0);
      ReapedNow(s, moves, p);
      if j: nat :| FlaggedSince(r, rest, p, j) {
        FlaggedLater(s, moves, p, j);
        assert FlaggedSince(s, moves, p, j + 1);
      }
      if j: nat :| FlaggedSince(s, moves, p, j) {
        if j > 0 { FlaggedLater(s, moves, p, j - 1); }
      }
    }
  }

  lemma NoMoves(s: State, p: nat)
    requires INIT < |s.procs|
    ensures NeverReaped(s, [], p, 0) && forall j: nat :: !FlaggedSince(s, [], p, j)
  {
  }

  /** On every run a slot carries the flag exactly when kill has found its pid there and wait has not reaped the
      slot since; whether it was in use then makes no difference. */
  lemma KilledIff(ncpu: nat, nproc: nat, moves: seq<Move>, p: nat)
    requires INIT < nproc && p < nproc && Possible(Start(ncpu, nproc), moves)
    ensures p < |Exec(Start(ncpu, nproc), moves).procs|
    ensures Exec(Start(ncpu, nproc), moves).procs[p].killed <==>
            exists j: nat :: FlaggedSince(Start(ncpu, nproc), moves, p, j)
  {
    StartInv(ncpu, nproc);
    hide Inv, Exec, Possible;
    FlaggedFrom(Start(ncpu, nproc), moves, p);
  }

  // ---------------------------------------------------------------- who is killed

  /** No move leaves the flag on a free slot. */
  ghost predicate NoStray(s: State, moves: seq<Move>)
    requires INIT < |s.procs| && Possible(s, moves)
  {
    forall i, p | 0 <= i < |moves| && 0 <= p < |States(s, moves)[i].procs| ::
      !Stray(States(s, moves)[i], moves[i].cpu, moves[i].act, p)
  }

  /** Move j kills the process with this pid in slot p, whose flag wait does not clear from then on. */
  ghost predicate KilledSince(s: State, moves: seq<Move>, p: nat, pid: nat, j: nat)
    requires INIT < |s.procs| && Possible(s, moves)
  {
    && FlaggedSince(s, moves, p, j) && p < |States(s, moves)[j].procs|
    && InUse(States(s, moves)[j].procs[p]) && States(s, moves)[j].procs[p].pid == pid
  }

  lemma StrayRest(s: State, moves: seq<Move>)
    requires INIT < |s.procs| && moves != [] && Possible(s, moves) && NoStray(s, moves)
    ensures forall p | 0 <= p < |s.procs| :: !Stray(s, moves[0].cpu, moves[0].act, p)
    ensures NoStray(Do(s, moves[0].cpu, moves[0].act), moves[1..])
  {
    hide Do, Stray, States;
    var r, rest := Do(s, moves[0].cpu, moves[0].act), moves[1..];
    assert States(s, moves)[0] == s;
    forall i, p | 0 <= i < |rest| && 0 <= p < |States(r, rest)[i].procs|
      ensures !Stray(States(r, rest)[i], rest[i].cpu, rest[i].act, p)
    {
      StatesRest(s, moves, i + 1);
      assert moves[i + 1] == rest[i];
    }
  }

  lemma KilledLater(s: State, moves: seq<Move>, p: nat, pid: nat, j: nat)
    requires INIT < |s.procs| && moves != [] && Possible(s, moves)
    requires KilledSince(Do(s, moves[0].cpu, moves[0].act), moves[1..], p, pid, j)
    ensures KilledSince(s, moves, p, pid, j + 1)
  {
    FlaggedLater(s, moves, p, j);
    hide Do, FlaggedSince, States;
    assert j < |moves[1..]| by { FlaggedInside(Do(s, moves[0].cpu, moves[0].act), moves[1..], p, j); }
    StatesRest(s, moves, j + 1);
  }

  lemma FlaggedInside(s: State, moves: seq<Move>, p: nat, j: nat)
    requires INIT < |s.procs| && Possible(s, moves) && FlaggedSince(s, moves, p, j)
    ensures j < |moves|
  {
  }

  /** A killed process was killed before, or is killed in the run, as the process it is. */
  lemma {:induction false} CauseFrom(s: State, moves: seq<Move>, p: nat)
    requires Inv(s) && Clean(s) && INIT < |s.procs| && Possible(s, moves) && NoStray(s, moves) && p < |s.procs|
    requires p < |Exec(s, moves).procs| && InUse(Exec(s, moves).procs[p]) && Exec(s, moves).procs[p].killed
    ensures var pid := Exec(s, moves).procs[p].pid;
            || (s.procs[p].killed && InUse(s.procs[p]) && s.procs[p].pid == pid && NeverReaped(s, moves, p, 0))
            || exists j: nat :: KilledSince(s, moves, p, pid, j)
    decreases |moves|
  {
    hide Inv, Do, Kills, Reaps, Takes, Fails, Stray, NeverReaped, FlaggedSince, KilledSince, NoStray;
    if moves == [] {
      NoMoves(s, p);
    } else {
      var c, a, rest := moves[0].cpu, moves[0].act, moves[1..];
      var r := Do(s, c, a);
      var pid := Exec(s, moves).procs[p].pid;
      InvStep(s, c, a);
      StrayRest(s, moves);
      CleanStepIff(s, c, a);
      SlotStep(s, c, a, p);
      NotBoth(s, c, a, p);
      CauseFrom(r, rest, p);
      if j: nat :| KilledSince(r, rest, p, pid, j) {
        KilledLater(s, moves, p, pid, j);
        assert KilledSince(s, moves, p, pid, j + 1);
      } else {
        ReapedLater(s, moves, p, 0);
        ReapedNow(s, moves, p);
        if Kills(s, c, a, p) { KilledNow(s, moves, p, pid); }
      }
    }
  }

  lemma KilledNow(s: State, moves: seq<Move>, p: nat, pid: nat)
    requires INIT < |s.procs| && p < |s.procs| && moves != [] && Possible(s, moves) && FlaggedSince(s, moves, p, 0)
    requires InUse(s.procs[p]) && s.procs[p].pid == pid
    ensures KilledSince(s, moves, p, pid, 0)
  {
    hide Do, FlaggedSince;
  }

  /** On every run in which kill finds no free slot, and no fork fails with its child killed, a process is killed
      exactly when kill was called with its pid while it had it. */
  lemma KilledForCause(ncpu: nat, nproc: nat, moves: seq<Move>, p: nat)
    requires INIT < nproc && p < nproc && Possible(Start(ncpu, nproc), moves) && NoStray(Start(ncpu, nproc), moves)
    requires p < |Exec(Start(ncpu, nproc), moves).procs| && InUse(Exec(Start(ncpu, nproc), moves).procs[p])
    ensures var x := Exec(Start(ncpu, nproc), moves).procs[p];
            x.killed <==> exists j: nat :: KilledSince(Start(ncpu, nproc), moves, p, x.pid, j)
  {
    StartInv(ncpu, nproc);
    hide Inv, Exec, Possible, FlaggedSince, NoStray;
    var s := Start(ncpu, nproc);
    FlaggedFrom(s, moves, p);
    if Exec(s, moves).procs[p].killed { CauseFrom(s, moves, p); }
  }

  // ---------------------------------------------------------------- a process born killed

  /** One move in front of a run. */
  lemma Prepend(s: State, m: Move, rest: seq<Move>)
    requires INIT < |s.procs| && Enabled(s, m.cpu, m.act)
    requires var r := Do(s, m.cpu, m.act); INIT < |r.procs| && Possible(r, rest)
    ensures Possible(s, [m] + rest) && Exec(s, [m] + rest) == Exec(Do(s, m.cpu, m.act), rest)
  {
    hide Do, Enabled;
    assert ([m] + rest)[1..] == rest;
  }

  /** The run a and then the run b. */
  lemma {:induction false} Concat(s: State, a: seq<Move>, b: seq<Move>)
    requires INIT < |s.procs| && Possible(s, a)
    requires var r := Exec(s, a); INIT < |r.procs| && Possible(r, b)
    ensures Possible(s, a + b) && Exec(s, a + b) == Exec(Exec(s, a), b)
    decreases |a|
  {
    hide Do, Enabled;
    if a == [] {
      assert a + b == b;
    } else {
      Concat(Do(s, a[0].cpu, a[0].act), a[1..], b);
      assert a + b == [a[0]] + (a[1..] + b);
      Prepend(s, a[0], a[1..] + b);
    }
  }

  /** Act a of CPU 0 takes s to r. */
  ghost predicate Goes(s: State, a: Act, r: State) {
    INIT < |s.procs| && INIT < |r.procs| && Enabled(s, 0, a) && Do(s, 0, a) == r
  }

  lemma ThreeMoves(s: State, a: Act, s1: State, b: Act, s2: State, c: Act, r: State) returns (moves: seq<Move>)
    requires Goes(s, a, s1) && Goes(s1, b, s2) && Goes(s2, c, r)
    ensures moves == [Move(0, a), Move(0, b), Move(0, c)]
    ensures INIT < |s.procs| && Possible(s, moves) && Exec(s, moves) == r
  {
    hide Do, Enabled;
    Prepend(s2, Move(0, c), []);
    Prepend(s1, Move(0, b), [Move(0, c)]);
    Prepend(s, Move(0, a), [Move(0, b), Move(0, c)]);
    moves := [Move(0, a)] + ([Move(0, b)] + [Move(0, c)]);
  }

  // One CPU, which runs the first process, and slot 1.

  function Two(pc: Pc, fork: ForkAt, x: Proc): State {
    State(if pc.Holds() then Some(0) else None, [Cpu(Some(0), if pc.Holds() then 1 else 0, Gone(0))],
          [Proc(RUNNING, INIT_PID, None, NoChan, false, pc, fork), x],
          if x.state == UNUSED then INIT_PID + 1 else INIT_PID + 2, {}, [],
          if x.state == RUNNABLE then map[x.pid := INIT_PID] else map[])
  }

  function Slot1(state: RunState, parent: Option<nat>, killed: bool): Proc {
    Proc(state, if state == UNUSED then 0 else INIT_PID + 1, parent, NoChan, killed,
         if state == RUNNABLE then Off(Newborn) else NoThread, NoFork)
  }

  lemma Boots() returns (moves: seq<Move>)
    ensures Possible(Start(1, 2), moves) && forall i | 0 <= i < |moves| :: !moves[i].act.Call?
    ensures Exec(Start(1, 2), moves) == Two(Code(0), NoFork, Slot1(UNUSED, None, false))
  {
    var free := Slot1(UNUSED, None, false);
    var off := Proc(RUNNABLE, INIT_PID, None, NoChan, false, Off(Newborn), NoFork);
    var s0 := State(None, [Cpu(None, 0, Outside)], [off, free], INIT_PID + 1, {}, [], map[]);
    assert Start(1, 2) == s0;
    var s1 := State(Some(0), [Cpu(None, 1, Scan(0))], [off, free], INIT_PID + 1, {}, [], map[]);
    assert Goes(s0, Sched, s1);
    var s2 := Two(Back(Newborn), NoFork, free);
    assert Goes(s1, Sched, s2);
    assert Goes(s2, Cont, Two(Code(0), NoFork, free));
    moves := ThreeMoves(s0, Sched, s1, Sched, s2, Cont, Two(Code(0), NoFork, free));
  }

  lemma KillsZero() returns (moves: seq<Move>)
    ensures var s := Two(Code(0), NoFork, Slot1(UNUSED, None, false));
            INIT < |s.procs| && Possible(s, moves)
            && Exec(s, moves) == Two(Code(0), NoFork, Slot1(UNUSED, None, true))
    ensures |moves| == 3 && moves[0].act == Call(KillJob(0)) && moves[1].act == Cont && moves[2].act == Cont
  {
    var free, hit := Slot1(UNUSED, None, false), Slot1(UNUSED, None, true);
    var s0, s1 := Two(Code(0), NoFork, free), Two(KillCs(0, 0), NoFork, free);
    var s2, s3 := Two(Done(0), NoFork, hit), Two(Code(0), NoFork, hit);
    assert Goes(s0, Call(KillJob(0)), s1);
    assert Goes(s1, Cont, s2) by {
      assert SlotOf(s1.procs, 0, 0) == 1;
    }
    assert Goes(s2, Cont, s3);
    moves := ThreeMoves(s0, Call(KillJob(0)), s1, Cont, s2, Cont, s3);
  }

  lemma Forks1() returns (moves: seq<Move>)
    ensures var s := Two(Code(0), NoFork, Slot1(UNUSED, None, true));
            INIT < |s.procs| && Possible(s, moves)
            && Exec(s, moves) == Two(Done(0), Embryo(1), Slot1(EMBRYO, None, true))
    ensures |moves| == 3 && moves[0].act == Call(ForkJob) && moves[1].act == Cont && moves[2].act == Cont
  {
    var free := Slot1(UNUSED, None, true);
    var s0, s1 := Two(Code(0), NoFork, free), Two(AllocScan(0), NoFork, free);
    var s2, s3 := Two(AllocScan(1), NoFork, free), Two(Done(0), Embryo(1), Slot1(EMBRYO, None, true));
    assert Goes(s0, Call(ForkJob), s1);
    assert Goes(s1, Cont, s2);
    assert Goes(s2, Cont, s3);
    moves := ThreeMoves(s0, Call(ForkJob), s1, Cont, s2, Cont, s3);
  }

  lemma Forks2() returns (moves: seq<Move>)
    ensures var s := Two(Done(0), Embryo(1), Slot1(EMBRYO, None, true));
            INIT < |s.procs| && Possible(s, moves)
            && Exec(s, moves) == Two(PublishCs, Forked(1), Slot1(EMBRYO, Some(INIT), true))
    ensures |moves| == 3 && moves[0].act == Cont && moves[1].act == Adopt && moves[2].act == Call(PublishJob)
  {
    var x := Slot1(EMBRYO, None, true);
    var y := Slot1(EMBRYO, Some(INIT), true);
    var s0, s1 := Two(Done(0), Embryo(1), x), Two(Code(0), Embryo(1), x);
    var s2, s3 := Two(Code(0), Forked(1), y), Two(PublishCs, Forked(1), y);
    assert Goes(s0, Cont, s1);
    assert Goes(s1, Adopt, s2);
    assert Goes(s2, Call(PublishJob), s3);
    moves := ThreeMoves(s0, Cont, s1, Adopt, s2, Call(PublishJob), s3);
  }

  lemma Forks3() returns (moves: seq<Move>)
    ensures var s := Two(PublishCs, Forked(1), Slot1(EMBRYO, Some(INIT), true));
            INIT < |s.procs| && Possible(s, moves)
            && Exec(s, moves) == Two(Done(0), NoFork, Slot1(RUNNABLE, Some(INIT), true))
    ensures moves == [Move(0, Cont)]
  {
    var s0 := Two(PublishCs, Forked(1), Slot1(EMBRYO, Some(INIT), true));
    var s1 := Two(Done(0), NoFork, Slot1(RUNNABLE, Some(INIT), true));
    assert Goes(s0, Cont, s1);
    Prepend(s0, Move(0, Cont), []);
    moves := [Move(0, Cont)] + [];
  }

  /** The first process calls kill(0), which finds the free slot 1, and then forks: the child is killed before it
      has run, although nobody has called kill with its pid. */
  lemma BornKilledReached() returns (moves: seq<Move>)
    ensures Possible(Start(1, 2), moves)
    ensures |Exec(Start(1, 2), moves).procs| == 2
    ensures var x := Exec(Start(1, 2), moves).procs[1]; x.state == RUNNABLE && x.pid == INIT_PID + 1 && x.killed
    ensures forall i | 0 <= i < |moves| :: moves[i].act.Call? && moves[i].act.job.KillJob? ==> moves[i].act.job.pid == 0
  {
    hide Exec, Possible;
    var s := Start(1, 2);
    var a := Boots();
    var b := KillsZero();
    var c := Forks1();
    var d := Forks2();
    var e := Forks3();
    Concat(s, a, b);
    Concat(s, a + b, c);
    Concat(s, a + b + c, d);
    Concat(s, a + b + c + d, e);
    moves := a + b + c + d + e;
  }
}
