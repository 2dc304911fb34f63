/** pipe.c over whole runs: any number of readers and writers, their sleeps and wakeups. A step is one critical
    section of the pipe's lock, whose effect on the ring buffer is that of the methods of Pipe. */
module PipeRun {
  import opened Common
  import Pipe

  const PIPESIZE := Pipe.PIPESIZE

  /** What a process is doing with the pipe; asleep means in sleep() on nwrite (writers) or nread (readers). */
  datatype Phase<Byte> =
    | Idle
    | Writing(addr: seq<Byte>, i: nat, asleep: bool)
    | Reading(n: int, asleep: bool)

  datatype State<Byte> = State(
    procs: seq<Phase<Byte>>, killed: set<nat>, accepted: seq<Byte>, delivered: seq<Byte>, readopen: bool,
    writeopen: bool)

  datatype Step<Byte> =
    | StartWrite(p: nat, addr: seq<Byte>)
    | StartRead(p: nat, n: int)
    | RunWrite(p: nat)
    | RunRead(p: nat)
    | Kill(p: nat)
    | Close(p: nat, writable: bool)

  function Flight<Byte>(s: State<Byte>): (n: int) { |s.accepted| - |s.delivered| }

  predicate ReaderAsleep<Byte>(s: State<Byte>, p: nat) { p < |s.procs| && s.procs[p].Reading? && s.procs[p].asleep }
  predicate WriterAsleep<Byte>(s: State<Byte>, p: nat) { p < |s.procs| && s.procs[p].Writing? && s.procs[p].asleep }

  function Awake<Byte>(ph: Phase<Byte>): (r: Phase<Byte>) {
    match ph
    case Idle => Idle
    case Writing(addr, i, _) => Writing(addr, i, false)
    case Reading(n, _) => Reading(n, false)
  }

  /** wakeup(&p->nread) */
  function WakeReaders<Byte>(ps: seq<Phase<Byte>>): (r: seq<Phase<Byte>>)
    ensures |r| == |ps| && forall p | 0 <= p < |ps| :: r[p] == if ps[p].Reading? then Awake(ps[p]) else ps[p]
  {
    seq(|ps|, p requires 0 <= p < |ps| => if ps[p].Reading? then Awake(ps[p]) else ps[p])
  }

  /** wakeup(&p->nwrite) */
  function WakeWriters<Byte>(ps: seq<Phase<Byte>>): (r: seq<Phase<Byte>>)
    ensures |r| == |ps| && forall p | 0 <= p < |ps| :: r[p] == if ps[p].Writing? then Awake(ps[p]) else ps[p]
  {
    seq(|ps|, p requires 0 <= p < |ps| => if ps[p].Writing? then Awake(ps[p]) else ps[p])
  }

  predicate Enabled<Byte>(s: State<Byte>, t: Step<Byte>) {
    t.p < |s.procs| &&
    match t
    case StartWrite(p, _) => s.procs[p].Idle?
    case StartRead(p, _) => s.procs[p].Idle?
    case RunWrite(p) =>
      && s.procs[p].Writing? && !s.procs[p].asleep && s.procs[p].i <= |s.procs[p].addr|
      && 0 <= Flight(s) <= PIPESIZE
    case RunRead(p) => s.procs[p].Reading? && !s.procs[p].asleep && 0 <= Flight(s) <= PIPESIZE
    case Kill(p) => true
    case Close(_, _) => true
  }

  /** How many bytes the writer stores before it is done or the pipe is full. */
  function Stored<Byte>(s: State<Byte>, ph: Phase<Byte>): (k: nat)
    requires ph.Writing? && ph.i <= |ph.addr| && 0 <= Flight(s) <= PIPESIZE
    ensures ph.i + k <= |ph.addr|
  {
    Min(PIPESIZE - Flight(s), |ph.addr| - ph.i)
  }

  /** pipewrite gives up: the pipe is full before it is done, and the reader is gone or the writer was killed. */
  predicate GivesUp<Byte>(s: State<Byte>, p: nat)
    requires Enabled(s, RunWrite(p))
  {
    s.procs[p].i + Stored(s, s.procs[p]) < |s.procs[p].addr| && (!s.readopen || p in s.killed)
  }

  function Do<Byte>(s: State<Byte>, t: Step<Byte>): (r: State<Byte>)
    requires Enabled(s, t)
  {
    match t
    case StartWrite(p, addr) => s.(procs := s.procs[p := Writing(addr, 0, false)])
    case StartRead(p, n) => s.(procs := s.procs[p := Reading(n, false)])
    case RunWrite(p) =>
      var ph := s.procs[p];
      var k := Stored(s, ph);
      var r := s.(accepted := s.accepted + ph.addr[ph.i..ph.i + k]);
      if GivesUp(s, p) then r.(procs := s.procs[p := Idle])
      else if ph.i + k == |ph.addr| then r.(procs := WakeReaders(s.procs[p := Idle]))
      else r.(procs := WakeReaders(s.procs[p := Writing(ph.addr, ph.i + k, true)]))
    case RunRead(p) =>
      var n := s.procs[p].n;
      if Flight(s) == 0 && s.writeopen then
        s.(procs := s.procs[p := if p in s.killed then Idle else Reading(n, true)])
      else
        var k := if n < 0 then 0 else Min(Flight(s), n);
        var got := s.accepted[|s.delivered|..|s.delivered| + k];
        s.(procs := WakeWriters(s.procs[p := Idle]), delivered := s.delivered + got)
    case Kill(p) => s.(killed := s.killed + {p}, procs := s.procs[p := Awake(s.procs[p])])
    case Close(_, writable) =>
      if writable then s.(writeopen := false, procs := WakeReaders(s.procs))
      else s.(readopen := false, procs := WakeWriters(s.procs))
  }

  predicate Possible<Byte>(s: State<Byte>, steps: seq<Step<Byte>>)
    decreases |steps|
  {
    steps == [] || (Enabled(s, steps[0]) && Possible(Do(s, steps[0]), steps[1..]))
  }

  function Exec<Byte>(s: State<Byte>, steps: seq<Step<Byte>>): (r: State<Byte>)
    requires Possible(s, steps)
    decreases |steps|
  {
    if steps == [] then s else Exec(Do(s, steps[0]), steps[1..])
  }

  /** pipealloc */
  function Start<Byte>(n: nat): (s: State<Byte>) { State(seq(n, _ => Idle), {}, [], [], true, true) }

  // ---------------------------------------------------------------- first in, first out

  ghost predicate Fifo<Byte>(s: State<Byte>) {
    && s.delivered <= s.accepted && |s.accepted| <= |s.delivered| + PIPESIZE
    && (forall p | 0 <= p < |s.procs| && s.procs[p].Writing? :: s.procs[p].i <= |s.procs[p].addr|)
  }

  lemma FifoStep<Byte>(s: State<Byte>, t: Step<Byte>)
    requires Fifo(s) && Enabled(s, t)
    ensures Fifo(Do(s, t))
  {
  }

  // ---------------------------------------------------------------- wakeups

  /** Nobody sleeps without a reason: readers only on an empty pipe that can still be written, writers only on a
      full one that can still be read. */
  ghost predicate SleepsRightly<Byte>(s: State<Byte>) {
    && (forall p: nat | ReaderAsleep(s, p) :: Flight(s) == 0 && s.writeopen)
    && (forall p: nat | WriterAsleep(s, p) :: Flight(s) == PIPESIZE && s.readopen)
  }

  /** pipewrite returns -1 without the wakeup it owes: readers sleep, and the writer has filled the pipe since. */
  ghost predicate Forgets<Byte>(s: State<Byte>, t: Step<Byte>) {
    && t.RunWrite? && t.p < |s.procs| && s.procs[t.p].Writing? && s.procs[t.p].i + PIPESIZE < |s.procs[t.p].addr|
    && (!s.readopen || t.p in s.killed)
    && exists p: nat :: ReaderAsleep(s, p)
  }

  /** A step keeps this exactly unless it is such a return. */
  lemma SleepStepIff<Byte>(s: State<Byte>, t: Step<Byte>)
    requires Fifo(s) && SleepsRightly(s) && Enabled(s, t)
    ensures SleepsRightly(Do(s, t)) <==> !Forgets(s, t)
  {
    var r := Do(s, t);
    if Forgets(s, t) {
      var q: nat :| ReaderAsleep(s, q);
      assert ReaderAsleep(r, q) && Flight(r) == PIPESIZE;
    } else {
      forall q: nat | ReaderAsleep(r, q) ensures Flight(r) == 0 && r.writeopen { ReadersKept(s, t, q); }
      forall q: nat | WriterAsleep(r, q) ensures Flight(r) == PIPESIZE && r.readopen { WritersKept(s, t, q); }
    }
  }

  lemma ReadersKept<Byte>(s: State<Byte>, t: Step<Byte>, q: nat)
    requires Fifo(s) && SleepsRightly(s) && Enabled(s, t) && !Forgets(s, t) && ReaderAsleep(Do(s, t), q)
    ensures Flight(Do(s, t)) == 0 && Do(s, t).writeopen
  {
    if ReaderAsleep(s, q) {}
  }

  lemma WritersKept<Byte>(s: State<Byte>, t: Step<Byte>, q: nat)
    requires Fifo(s) && SleepsRightly(s) && Enabled(s, t) && WriterAsleep(Do(s, t), q)
    ensures Flight(Do(s, t)) == PIPESIZE && Do(s, t).readopen
  {
    if WriterAsleep(s, q) {}
  }

  /** No step of the run is such a return. */
  ghost predicate Remembers<Byte>(s: State<Byte>, steps: seq<Step<Byte>>)
    requires Possible(s, steps)
    decreases |steps|
  {
    steps == [] || (!Forgets(s, steps[0]) && Remembers(Do(s, steps[0]), steps[1..]))
  }

  lemma {:induction false} ExecFifo<Byte>(s: State<Byte>, steps: seq<Step<Byte>>)
    requires Fifo(s) && Possible(s, steps)
    ensures Fifo(Exec(s, steps))
    decreases |steps|
  {
    if steps != [] {
      FifoStep(s, steps[0]);
      ExecFifo(Do(s, steps[0]), steps[1..]);
    }
  }

  lemma {:induction false} ExecSleeps<Byte>(s: State<Byte>, steps: seq<Step<Byte>>)
    requires Fifo(s) && SleepsRightly(s) && Possible(s, steps) && Remembers(s, steps)
    ensures SleepsRightly(Exec(s, steps))
    decreases |steps|
  {
    if steps != [] {
      FifoStep(s, steps[0]);
      SleepStepIff(s, steps[0]);
      ExecSleeps(Do(s, steps[0]), steps[1..]);
    }
  }

  /** In every interleaving of any number of readers and writers, kills and closes included, what was delivered is
      a prefix of what was accepted, with at most PIPESIZE bytes in flight. */
  lemma DeliveredInOrder<Byte>(n: nat, steps: seq<Step<Byte>>)
    requires Possible(Start(n), steps)
    ensures var s := Exec(Start(n), steps);
            s.delivered <= s.accepted && |s.accepted| <= |s.delivered| + PIPESIZE
  {
    ExecFifo(Start(n), steps);
  }

  /** No wakeup is lost, on every run in which no writer gives up with readers asleep and more than PIPESIZE bytes
      to write: readers sleep only on an empty pipe, writers only on a full one, and never both. */
  lemma NoLostWakeup<Byte>(n: nat, steps: seq<Step<Byte>>)
    requires Possible(Start(n), steps) && Remembers(Start(n), steps)
    ensures var s := Exec(Start(n), steps);
            && (forall p: nat | ReaderAsleep(s, p) :: s.delivered == s.accepted && s.writeopen)
            && (forall p: nat | WriterAsleep(s, p) :: |s.accepted| == |s.delivered| + PIPESIZE && s.readopen)
            && (forall p: nat, q: nat :: !(ReaderAsleep(s, p) && WriterAsleep(s, q)))
  {
    ExecFifo(Start(n), steps);
    ExecSleeps(Start(n), steps);
  }

  /** A run in which a wakeup is lost: a reader sleeps, and a writer of more than PIPESIZE bytes is killed. The
      reader sleeps on although the pipe is full, until somebody writes again or closes the write end. */
  lemma LostWakeupReached<Byte>(x: Byte) returns (steps: seq<Step<Byte>>)
    ensures Possible(Start(2), steps)
    ensures var s := Exec(Start(2), steps);
            && ReaderAsleep(s, 0) && (forall p | 1 <= p < |s.procs| :: s.procs[p].Idle?)
            && |s.accepted| == |s.delivered| + PIPESIZE && s.readopen && s.writeopen
  {
    var addr := seq(PIPESIZE + 1, _ => x);
    steps := [StartRead(0, 1), RunRead(0), StartWrite(1, addr), Kill(1), RunWrite(1)];
    var s0: State<Byte> := Start(2);
    var s1 := Do(s0, steps[0]);
    var s2 := Do(s1, steps[1]);
    var s3 := Do(s2, steps[2]);
    var s4 := Do(s3, steps[3]);
    var s5 := Do(s4, steps[4]);
    var o1, o2, o3, o4 := steps[1..], steps[2..], steps[3..], steps[4..];
    assert o1[1..] == o2 && o2[1..] == o3 && o3[1..] == o4 && o4[1..] == [];
    assert Possible(s5, []) && Exec(s5, []) == s5;
    assert Possible(s4, o4) && Exec(s4, o4) == s5;
    assert Possible(s3, o3) && Exec(s3, o3) == s5;
    assert Possible(s2, o2) && Exec(s2, o2) == s5;
    assert Possible(s1, o1) && Exec(s1, o1) == s5;
  }

  // ---------------------------------------------------------------- what each call contributes

  /** The bytes a step appends to what the pipe has accepted. */
  function Added<Byte>(s: State<Byte>, t: Step<Byte>): (r: seq<Byte>)
    requires Enabled(s, t)
  {
    var now := Do(s, t).accepted;
    if |s.accepted| <= |now| then now[|s.accepted|..] else []
  }

  /** The bytes the steps of process p append, one after the other. */
  function AddedBy<Byte>(s: State<Byte>, steps: seq<Step<Byte>>, p: nat): (r: seq<Byte>)
    requires Possible(s, steps)
    decreases |steps|
  {
    if steps == [] then []
    else (if steps[0].p == p then Added(s, steps[0]) else []) + AddedBy(Do(s, steps[0]), steps[1..], p)
  }

  /** Process p makes no further call of pipewrite or piperead. */
  predicate NoNewCall<Byte>(steps: seq<Step<Byte>>, p: nat) {
    forall k | 0 <= k < |steps| && steps[k].p == p :: !steps[k].StartWrite? && !steps[k].StartRead?
  }

  /** Process p has stored the first n bytes of addr, and is still in the call or back from it. */
  ghost predicate Underway<Byte>(s: State<Byte>, p: nat, addr: seq<Byte>, n: nat) {
    && p < |s.procs| && n <= |addr|
    && (s.procs[p].Idle? || (s.procs[p].Writing? && s.procs[p].addr == addr && s.procs[p].i == n))
    && (s.procs[p].Idle? && s.readopen && p !in s.killed ==> n == |addr|)
  }

  lemma UnderwayStep<Byte>(s: State<Byte>, t: Step<Byte>, p: nat, addr: seq<Byte>, n: nat)
    requires Enabled(s, t) && Fifo(s) && Underway(s, p, addr, n)
    requires t.p == p ==> !t.StartWrite? && !t.StartRead?
    ensures var bytes := if t.p == p then Added(s, t) else [];
            n + |bytes| <= |addr| && bytes == addr[n..n + |bytes|] && Underway(Do(s, t), p, addr, n + |bytes|)
  {
  }

  lemma {:induction false} UnderwayRun<Byte>(s: State<Byte>, steps: seq<Step<Byte>>, p: nat, addr: seq<Byte>, n: nat)
    requires Fifo(s) && Possible(s, steps) && NoNewCall(steps, p) && n <= |addr| && Underway(s, p, addr, n)
    ensures var bytes := AddedBy(s, steps, p);
            n + |bytes| <= |addr| && bytes == addr[n..n + |bytes|] && Underway(Exec(s, steps), p, addr, n + |bytes|)
    decreases |steps|
  {
    hide Do, Enabled, Added, Underway, Fifo;
    if steps == [] {
      assert addr[n..n] == [];
    } else {
      var t := steps[0];
      UnderwayStep(s, t, p, addr, n);
      FifoStep(s, t);
      var bytes := if t.p == p then Added(s, t) else [];
      UnderwayRun(Do(s, t), steps[1..], p, addr, n + |bytes|);
      var rest := AddedBy(Do(s, t), steps[1..], p);
      assert AddedBy(s, steps, p) == bytes + rest;
      assert addr[n..n + |bytes|] + addr[n + |bytes|..n + |bytes| + |rest|] == addr[n..n + |bytes| + |rest|];
    }
  }

  /** A call of pipewrite, whatever the others do meanwhile and however often it sleeps: what it has stored is a
      prefix of its bytes, in order, exactly as far as it says it has come; and once it has returned, it is all of
      them, unless the reader was gone or the writer killed. */
  lemma WriteInOrder<Byte>(n: nat, before: seq<Step<Byte>>, p: nat, addr: seq<Byte>, after: seq<Step<Byte>>)
    requires Possible(Start(n), before) && NoNewCall(after, p)
    requires var s := Exec(Start(n), before);
             Enabled(s, StartWrite(p, addr)) && Possible(Do(s, StartWrite(p, addr)), after)
    ensures var s := Do(Exec(Start(n), before), StartWrite(p, addr));
            var r, bytes := Exec(s, after), AddedBy(s, after, p);
            && bytes <= addr && p < |r.procs|
            && (r.procs[p].Writing? ==> r.procs[p].addr == addr && r.procs[p].i == |bytes|)
            && (!r.procs[p].Writing? && r.readopen && p !in r.killed ==> bytes == addr)
  {
    hide Enabled;
    ExecFifo(Start(n), before);
    var s0 := Exec(Start(n), before);
    Begun(s0, p, addr);
    hide Do, Fifo;
    UnderwayRun(Do(s0, StartWrite(p, addr)), after, p, addr, 0);
  }

  lemma Begun<Byte>(s: State<Byte>, p: nat, addr: seq<Byte>)
    requires Fifo(s) && Enabled(s, StartWrite(p, addr))
    ensures Fifo(Do(s, StartWrite(p, addr))) && Underway(Do(s, StartWrite(p, addr)), p, addr, 0)
  {
  }

  /** Nothing else is accepted: only a step of a writer appends anything, and nothing is ever taken back. */
  lemma OnlyWritersAdd<Byte>(s: State<Byte>, t: Step<Byte>)
    requires Fifo(s) && Enabled(s, t)
    ensures Do(s, t).accepted == s.accepted + Added(s, t) && (Added(s, t) != [] ==> t.RunWrite?)
  {
  }

  // ---------------------------------------------------------------- the steps as the methods of the pipe

  ghost predicate Shows<Byte(0)>(pipe: Pipe.Pipe<Byte>, s: State<Byte>)
    reads pipe, pipe.data
  {
    && pipe.Valid() && pipe.accepted == s.accepted && pipe.delivered == s.delivered
    && pipe.readopen == s.readopen && pipe.writeopen == s.writeopen
  }

  /** The critical section of a writer does the writer's step, and sleeps exactly if the step does. */
  method RunWriteOn<Byte(0)>(pipe: Pipe.Pipe<Byte>, ghost s: State<Byte>, p: nat, addr: seq<Byte>, start: nat,
                             killed: bool)
    returns (r: Pipe.Outcome<nat>, i: nat)
    requires Shows(pipe, s) && Enabled(s, RunWrite(p)) && s.procs[p] == Writing(addr, start, false)
    requires killed == (p in s.killed)
    modifies pipe`nwrite, pipe`accepted, pipe.data
    ensures Shows(pipe, Do(s, RunWrite(p)))
    ensures Do(s, RunWrite(p)).procs[p] == if r.Slept? then Writing(addr, i, true) else Idle
    ensures r.Returned? ==> i == |addr| == r.value
  {
    r, i := pipe.WriteFrom(addr, start, killed);
    assert addr[start..i] == addr[start..start + Stored(s, s.procs[p])];
  }

  /** The critical section of a reader does the reader's step, and returns what the step delivers. */
  method RunReadOn<Byte(0)>(pipe: Pipe.Pipe<Byte>, ghost s: State<Byte>, p: nat, n: int, killed: bool)
    returns (r: Pipe.Outcome<seq<Byte>>)
    requires Shows(pipe, s) && Enabled(s, RunRead(p)) && s.procs[p] == Reading(n, false)
    requires killed == (p in s.killed)
    modifies pipe`nread, pipe`delivered
    ensures Shows(pipe, Do(s, RunRead(p)))
    ensures Do(s, RunRead(p)).procs[p] == if r.Slept? then Reading(n, true) else Idle
    ensures r.Returned? ==> Do(s, RunRead(p)).delivered == s.delivered + r.value
  {
    r := pipe.Read(n, killed);
  }

  /** Closing an end does the step. */
  method CloseOn<Byte(0)>(pipe: Pipe.Pipe<Byte>, ghost s: State<Byte>, p: nat, writable: bool) returns (freed: bool)
    requires Shows(pipe, s) && Enabled(s, Close(p, writable))
    modifies pipe`readopen, pipe`writeopen
    ensures Shows(pipe, Do(s, Close(p, writable)))
  {
    freed := pipe.Close(writable);
  }
}
