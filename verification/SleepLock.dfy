/** sleeplock.c over sleep/wakeup of proc.c: any number of processes contending for one sleep lock,
    interleaved at every acquisition and release of its spin lock and of ptable.lock. */
module SleepLock {

  /** Where a process is. Spin locks held: lk from Check on until it is released, pt in the *Pt phases. */
  datatype Phase =
    | Out              // neither holds nor wants the sleep lock
    | WantLk           // acquiresleep, before acquire(&lk->lk); also sleep() before it reacquires lk
    | Check            // holds lk, about to test lk->locked
    | SleepWantPt      // holds lk, found it locked, in sleep() before acquire(&ptable.lock)
    | SleepBothPt      // holds lk and ptable.lock, before release(lk)
    | SleepPt          // holds ptable.lock only, before it is marked SLEEPING
    | Asleep           // SLEEPING on the lock
    | Owner            // returned from acquiresleep
    | RelWantLk        // releasesleep, before acquire(&lk->lk)
    | RelLk            // holds lk, before lk->locked = 0
    | RelOwes          // holds lk, cleared the lock, in wakeup() before acquire(&ptable.lock)
    | RelPt            // holds lk and ptable.lock, before wakeup1 marks the sleepers RUNNABLE
    | RelDone          // holds lk, before release(&lk->lk)
  {
    predicate HoldsLk() {
      Check? || SleepWantPt? || SleepBothPt? || RelLk? || RelOwes? || RelPt? || RelDone?
    }

    predicate HoldsPt() {
      SleepBothPt? || SleepPt? || RelPt?
    }

    /** Between the return of acquiresleep and the store that releases the lock. */
    predicate Owns() {
      Owner? || RelWantLk? || RelLk?
    }
  }

  datatype State = State(locked: bool, procs: seq<Phase>)

  predicate LkFree(s: State) { forall p | 0 <= p < |s.procs| :: !s.procs[p].HoldsLk() }
  predicate PtFree(s: State) { forall p | 0 <= p < |s.procs| :: !s.procs[p].HoldsPt() }

  /** Process p takes its next step, or (Kill) is woken by kill() while asleep. */
  datatype Step = Go(p: nat) | Enter(p: nat) | Leave(p: nat) | Kill(p: nat)

  predicate Enabled(s: State, t: Step) {
    t.p < |s.procs| &&
    match t
    case Enter(p) => s.procs[p].Out?
    case Leave(p) => s.procs[p].Owner?
    case Kill(p) => s.procs[p].Asleep? && PtFree(s)
    case Go(p) =>
      match s.procs[p]
      case WantLk => LkFree(s)
      case RelWantLk => LkFree(s)
      case SleepWantPt => PtFree(s)
      case RelOwes => PtFree(s)
      case Check => true
      case SleepBothPt => true
      case SleepPt => true
      case RelLk => true
      case RelPt => true
      case RelDone => true
      case _ => false
  }

  /** wakeup1: every process sleeping on the lock will run and reacquire lk. */
  function WakeAll(ps: seq<Phase>): (r: seq<Phase>)
    ensures |r| == |ps| && forall p | 0 <= p < |ps| :: r[p] == if ps[p].Asleep? then WantLk else ps[p]
  {
    seq(|ps|, p requires 0 <= p < |ps| => if ps[p].Asleep? then WantLk else ps[p])
  }

  function Do(s: State, t: Step): (r: State)
    requires Enabled(s, t)
  {
    match t
    case Enter(p) => s.(procs := s.procs[p := WantLk])
    case Leave(p) => s.(procs := s.procs[p := RelWantLk])
    case Kill(p) => s.(procs := s.procs[p := WantLk])
    case Go(p) =>
      match s.procs[p]
      case WantLk => s.(procs := s.procs[p := Check])
      case Check =>
        if s.locked then s.(procs := s.procs[p := SleepWantPt])
        else State(true, s.procs[p := Owner])                     // locked = 1, then release(&lk->lk)
      case SleepWantPt => s.(procs := s.procs[p := SleepBothPt])
      case SleepBothPt => s.(procs := s.procs[p := SleepPt])
      case SleepPt => s.(procs := s.procs[p := Asleep])           // SLEEPING; sched hands ptable.lock on
      case RelWantLk => s.(procs := s.procs[p := RelLk])
      case RelLk => State(false, s.procs[p := RelOwes])
      case RelOwes => s.(procs := s.procs[p := RelPt])
      case RelPt => s.(procs := WakeAll(s.procs)[p := RelDone])
      case RelDone => s.(procs := s.procs[p := Out])
  }

  predicate Possible(s: State, steps: seq<Step>)
    decreases |steps|
  {
    steps == [] || (Enabled(s, steps[0]) && Possible(Do(s, steps[0]), steps[1..]))
  }

  function Exec(s: State, steps: seq<Step>): (r: State)
    requires Possible(s, steps)
    decreases |steps|
  {
    if steps == [] then s else Exec(Do(s, steps[0]), steps[1..])
  }

  function Start(n: nat): (s: State) {
    State(false, seq(n, _ => Out))
  }

  // ---------------------------------------------------------------- the invariant

  ghost predicate Exclusive(s: State) {
    && (forall p, q | 0 <= p < q < |s.procs| :: !(s.procs[p].HoldsLk() && s.procs[q].HoldsLk()))
    && (forall p, q | 0 <= p < q < |s.procs| :: !(s.procs[p].HoldsPt() && s.procs[q].HoldsPt()))
    && (forall p, q | 0 <= p < q < |s.procs| :: !(s.procs[p].Owns() && s.procs[q].Owns()))
  }

  /** Some releaser has cleared the lock and not yet woken the sleepers. */
  ghost predicate WakeupOwed(s: State) {
    exists r | 0 <= r < |s.procs| :: s.procs[r].RelOwes? || s.procs[r].RelPt?
  }

  ghost predicate Inv(s: State) {
    && Exclusive(s)
    && (s.locked <==> exists p | 0 <= p < |s.procs| :: s.procs[p].Owns())
    // a process that has decided to sleep and still holds lk was right to
    && (forall p | 0 <= p < |s.procs| && (s.procs[p].SleepWantPt? || s.procs[p].SleepBothPt?) :: s.locked)
    // once it has let go of lk, the lock is held or a wakeup is still to come
    && (forall p | 0 <= p < |s.procs| && (s.procs[p].SleepPt? || s.procs[p].Asleep?) :: s.locked || WakeupOwed(s))
  }

  /** A process may move to a phase that holds no lock it did not hold, unless that lock was free. */
  lemma ExclusiveUpdate(s: State, p: nat, phase: Phase, locked: bool)
    requires Exclusive(s) && p < |s.procs|
    requires phase.HoldsLk() ==> s.procs[p].HoldsLk() || LkFree(s)
    requires phase.HoldsPt() ==> s.procs[p].HoldsPt() || PtFree(s)
    requires phase.Owns() ==> s.procs[p].Owns() || forall q | 0 <= q < |s.procs| :: !s.procs[q].Owns()
    ensures Exclusive(State(locked, s.procs[p := phase]))
  {
  }

  lemma InvTake(s: State, p: nat)
    requires Inv(s) && Enabled(s, Go(p)) && (s.procs[p].WantLk? || s.procs[p].RelWantLk?)
    ensures Inv(Do(s, Go(p)))
  {
    var r := Do(s, Go(p));
    if q :| 0 <= q < |s.procs| && s.procs[q].Owns() { assert r.procs[q].Owns(); }
    if q :| 0 <= q < |r.procs| && r.procs[q].Owns() { assert s.procs[q].Owns(); }
    KeepOwed(s, r, p);
  }

  /** A step by a process that owes no wakeup keeps the others' debts. */
  lemma KeepOwed(s: State, r: State, p: nat)
    requires p < |s.procs| == |r.procs| && !s.procs[p].RelOwes? && !s.procs[p].RelPt?
    requires forall q | 0 <= q < |s.procs| && q != p :: r.procs[q] == s.procs[q]
    ensures WakeupOwed(s) ==> WakeupOwed(r)
  {
    if q :| 0 <= q < |s.procs| && (s.procs[q].RelOwes? || s.procs[q].RelPt?) {
      assert r.procs[q].RelOwes? || r.procs[q].RelPt?;
    }
  }

  lemma InvCheck(s: State, p: nat)
    requires Inv(s) && Enabled(s, Go(p)) && s.procs[p].Check?
    ensures Inv(Do(s, Go(p)))
  {
    var r := Do(s, Go(p));
    if s.locked {
      var q :| 0 <= q < |s.procs| && s.procs[q].Owns();
      assert r.procs[q].Owns();
    } else {
      assert r.procs[p].Owns();
    }
    KeepOwed(s, r, p);
  }

  lemma InvSleep(s: State, p: nat)
    requires Inv(s) && Enabled(s, Go(p)) && (s.procs[p].SleepWantPt? || s.procs[p].SleepBothPt? || s.procs[p].SleepPt?)
    ensures Inv(Do(s, Go(p)))
  {
    var r := Do(s, Go(p));
    ExclusiveUpdate(s, p, r.procs[p], s.locked);
    hide Exclusive;
    if q :| 0 <= q < |s.procs| && s.procs[q].Owns() { assert r.procs[q].Owns(); }
    if q :| 0 <= q < |r.procs| && r.procs[q].Owns() { assert s.procs[q].Owns(); }
    KeepOwed(s, r, p);
  }

  lemma InvRelease(s: State, p: nat)
    requires Inv(s) && Enabled(s, Go(p)) && (s.procs[p].RelLk? || s.procs[p].RelOwes?)
    ensures Inv(Do(s, Go(p)))
  {
    var r := Do(s, Go(p));
    assert r.procs[p].RelOwes? || r.procs[p].RelPt?;
    assert WakeupOwed(r);
    if q :| 0 <= q < |s.procs| && s.procs[q].Owns() && q != p { assert r.procs[q].Owns(); }
    if q :| 0 <= q < |r.procs| && r.procs[q].Owns() { assert s.procs[q].Owns(); }
  }

  lemma WakeKeepsExclusive(s: State, p: nat)
    requires Exclusive(s) && p < |s.procs| && s.procs[p].RelPt?
    ensures Exclusive(s.(procs := WakeAll(s.procs)[p := RelDone]))
    ensures forall q | 0 <= q < |s.procs| :: s.procs[q].HoldsPt() ==> q == p
  {
    var woken := s.(procs := WakeAll(s.procs));
    assert Exclusive(woken);
    ExclusiveUpdate(woken, p, RelDone, s.locked);
  }

  /** After wakeup1 nobody sleeps on the lock. */
  lemma InvWake(s: State, p: nat)
    requires Inv(s) && Enabled(s, Go(p)) && s.procs[p].RelPt?
    ensures Inv(Do(s, Go(p)))
    ensures forall q | 0 <= q < |s.procs| :: !Do(s, Go(p)).procs[q].Asleep? && !Do(s, Go(p)).procs[q].SleepPt?
  {
    var r := Do(s, Go(p));
    WakeKeepsExclusive(s, p);
    hide Exclusive;
    if q :| 0 <= q < |s.procs| && s.procs[q].Owns() { assert r.procs[q].Owns(); }
    if q :| 0 <= q < |r.procs| && r.procs[q].Owns() { assert s.procs[q].Owns(); }
  }

  lemma InvOther(s: State, t: Step)
    requires Inv(s) && Enabled(s, t) && (t.Go? ==> s.procs[t.p].RelDone?)
    ensures Inv(Do(s, t))
  {
    var r := Do(s, t);
    ExclusiveUpdate(s, t.p, r.procs[t.p], s.locked);
    hide Exclusive;
    if q :| 0 <= q < |s.procs| && s.procs[q].Owns() { assert r.procs[q].Owns(); }
    if q :| 0 <= q < |r.procs| && r.procs[q].Owns() { assert s.procs[q].Owns(); }
    KeepOwed(s, r, t.p);
  }

  lemma InvStep(s: State, t: Step)
    requires Inv(s) && Enabled(s, t)
    ensures Inv(Do(s, t))
  {
    if t.Go? {
      match s.procs[t.p]
      case WantLk => InvTake(s, t.p);
      case RelWantLk => InvTake(s, t.p);
      case Check => InvCheck(s, t.p);
      case SleepWantPt => InvSleep(s, t.p);
      case SleepBothPt => InvSleep(s, t.p);
      case SleepPt => InvSleep(s, t.p);
      case RelLk => InvRelease(s, t.p);
      case RelOwes => InvRelease(s, t.p);
      case RelPt => InvWake(s, t.p);
      case RelDone => InvOther(s, t);
    } else {
      InvOther(s, t);
    }
  }

  lemma {:induction false} ExecKeeps(s: State, steps: seq<Step>)
    requires Inv(s) && Possible(s, steps)
    ensures Inv(Exec(s, steps))
    decreases |steps|
  {
    if steps != [] {
      InvStep(s, steps[0]);
      ExecKeeps(Do(s, steps[0]), steps[1..]);
    }
  }

  /** In every interleaving, spurious wakeups included: at most one process is between acquiresleep
      and releasesleep, and whenever a process sleeps on the lock, the lock is held or a releaser
      still owes its wakeup -- no wakeup is lost. */
  lemma MutualExclusionAndNoLostWakeup(n: nat, steps: seq<Step>)
    requires Possible(Start(n), steps)
    ensures var s := Exec(Start(n), steps);
            && (forall p, q | 0 <= p < q < |s.procs| :: !(s.procs[p].Owns() && s.procs[q].Owns()))
            && (forall p | 0 <= p < |s.procs| && s.procs[p].Asleep? :: s.locked || WakeupOwed(s))
            && (forall p | 0 <= p < |s.procs| && s.procs[p].Owns() :: s.locked)
  {
    ExecKeeps(Start(n), steps);
  }
}
