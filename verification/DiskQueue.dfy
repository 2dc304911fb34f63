/** ide.c: the interrupt-driven request queue, refining the synchronous disk of memide.c. Each step is one
    critical section under idelock, or the holder of a buffer changing it outside iderw; a run is any
    sequence of steps of any number of callers and of disk interrupts. */
module DiskQueue {
  import opened Common
  import opened Disk
  import BufferCache

  const NONE := -1

  datatype Buf = Buf(blockno: nat, valid: bool, dirty: bool, data: Block)

  /** A call of iderw: which buffer, and what it held. */
  datatype Request = Request(buf: nat, blockno: nat, dirty: bool, data: Block)

  /** A return from iderw: the number of the call, and what the buffer holds. */
  datatype Answer = Answer(call: nat, data: Block)

  /** What the controller has been told to do; a write has already received its data. */
  datatype Command = Command(blockno: nat, write: bool, data: Block)

  // ---------------------------------------------------------------- memide.c

  /** memide.c's iderw: the device and the buffer's data afterwards. */
  function SyncDisk(d: Device, r: Request): (d': Device)
    requires r.blockno < |d|
    ensures |d'| == |d|
  {
    if r.dirty then d[r.blockno := r.data] else d
  }

  function SyncData(d: Device, r: Request): (b: Block)
    requires r.blockno < |d|
  {
    if r.dirty then r.data else d[r.blockno]
  }

  predicate AllInRange(rs: seq<Request>, size: nat) {
    forall k | 0 <= k < |rs| :: rs[k].blockno < size
  }

  /** The device after the calls, one after the other. */
  function SyncRun(d: Device, rs: seq<Request>): (d': Device)
    requires AllInRange(rs, |d|)
    ensures |d'| == |d|
  {
    if rs == [] then d else SyncDisk(SyncRun(d, rs[..|rs| - 1]), rs[|rs| - 1])
  }

  /** What the synchronous disk would have put into the buffer of call k. */
  function SyncResult(d: Device, rs: seq<Request>, k: nat): (b: Block)
    requires AllInRange(rs, |d|) && k < |rs|
  {
    SyncData(SyncRun(d, rs[..k]), rs[k])
  }

  /** Earlier calls do not depend on later ones. */
  lemma SyncResultStable(d: Device, rs: seq<Request>, r: Request, k: nat)
    requires AllInRange(rs, |d|) && r.blockno < |d| && k < |rs|
    ensures AllInRange(rs + [r], |d|) && SyncResult(d, rs + [r], k) == SyncResult(d, rs, k)
  {
    assert (rs + [r])[..k] == rs[..k];
  }

  /** memide.c's iderw, as the buffer cache calls it, is the synchronous disk. */
  method MemIderw(cache: BufferCache.Bcache, i: nat, pid: nat) returns (ok: bool)
    requires cache.Valid() && i < |cache.bufs|
    modifies cache`bufs, cache`disk, cache`trace
    ensures cache.Valid() && |cache.bufs| == |old(cache.bufs)|
    ensures ok ==> var b := old(cache.bufs[i]);
                   var r := Request(i, b.blockno, b.dirty, b.data);
                   && r.blockno < |old(cache.disk)| && cache.disk == SyncDisk(old(cache.disk), r)
                   && cache.bufs[i].data == SyncData(old(cache.disk), r)
                   && !cache.bufs[i].dirty && (cache.bufs[i].valid || b.dirty)
  {
    ok := cache.Iderw(i, pid);
  }

  /** Of the first n calls, call k is the last that wrote block b. */
  ghost predicate LastWrite(rs: seq<Request>, n: nat, k: nat, b: nat) {
    && k < n <= |rs| && rs[k].dirty && rs[k].blockno == b
    && forall j | k < j < n :: !(rs[j].dirty && rs[j].blockno == b)
  }

  /** x is what the last of the first n calls that wrote block b wrote, or what was there at the start. */
  ghost predicate AsWritten(image: Device, rs: seq<Request>, n: nat, b: nat, x: Block)
    requires b < |image| && n <= |rs|
  {
    && (forall k: nat | LastWrite(rs, n, k, b) :: x == rs[k].data)
    && ((forall k | 0 <= k < n :: !(rs[k].dirty && rs[k].blockno == b)) ==> x == image[b])
  }

  /** One more call, which writes block b or leaves it. */
  lemma AsWrittenMore(image: Device, rs: seq<Request>, n: nat, b: nat, x: Block, y: Block)
    requires b < |image| && |rs| == n + 1 && AsWritten(image, rs[..n], n, b, x)
    requires y == if rs[n].dirty && rs[n].blockno == b then rs[n].data else x
    ensures AsWritten(image, rs, n + 1, b, y)
  {
    forall k: nat | LastWrite(rs, n + 1, k, b) ensures y == rs[k].data {
      if k < n {
        assert !(rs[n].dirty && rs[n].blockno == b);
        assert forall j | k < j < n :: rs[..n][j] == rs[j];
        assert LastWrite(rs[..n], n, k, b);
      }
    }
    if forall k | 0 <= k < n + 1 :: !(rs[k].dirty && rs[k].blockno == b) {
      assert forall k | 0 <= k < n :: rs[..n][k] == rs[k];
    }
  }

  /** Block by block, the synchronous disk holds what was last written to it. */
  lemma {:induction false} SyncReads(d: Device, rs: seq<Request>, b: nat)
    requires AllInRange(rs, |d|) && b < |d|
    ensures AsWritten(d, rs, |rs|, b, SyncRun(d, rs)[b])
  {
    hide LastWrite;
    if rs == [] {
      NoneWritten(d, b);
    } else {
      hide AsWritten;
      var n := |rs| - 1;
      SyncReads(d, rs[..n], b);
      AsWrittenMore(d, rs, n, b, SyncRun(d, rs[..n])[b], SyncRun(d, rs)[b]);
    }
  }

  lemma NoneWritten(d: Device, b: nat)
    requires b < |d|
    ensures AsWritten(d, [], 0, b, d[b])
  {
  }

  lemma SyncReadsPart(d: Device, rs: seq<Request>, n: nat, b: nat)
    requires AllInRange(rs, |d|) && b < |d| && n <= |rs|
    ensures AsWritten(d, rs, n, b, SyncRun(d, rs[..n])[b])
  {
    hide SyncRun;
    SyncReads(d, rs[..n], b);
    forall k: nat | LastWrite(rs, n, k, b) ensures SyncRun(d, rs[..n])[b] == rs[k].data {
      assert LastWrite(rs[..n], n, k, b);
    }
  }

  // ---------------------------------------------------------------- the queue

  /** Position k of the queue links to position k+1. */
  ghost predicate LinkedAt(queue: seq<nat>, qnext: seq<int>, k: nat)
    requires k < |queue|
  {
    queue[k] < |qnext| && qnext[queue[k]] == if k + 1 < |queue| then queue[k + 1] else NONE
  }

  ghost predicate Chained(queue: seq<nat>, head: int, qnext: seq<int>) {
    && head == (if queue == [] then NONE else queue[0])
    && (forall k | 0 <= k < |queue| :: LinkedAt(queue, qnext, k))
    && (forall j, k | 0 <= j < k < |queue| :: queue[j] != queue[k])
  }

  /** The driver, the device, and the history of calls of iderw. */
  datatype State = State(
    bufs: seq<Buf>,
    idequeue: int,                 // head of the queue, NONE if empty
    qnext: seq<int>,
    device: Option<Command>,       // the active request of the controller
    disk: Device,
    image: Device,                 // the disk at the start
    queue: seq<nat>,
    submitted: seq<Request>,       // every call of iderw so far
    served: nat,                   // how many of them the disk has completed
    pending: map<nat, nat>,        // buffers inside iderw, with the number of their call
    answers: seq<Answer>           // every return from iderw so far
  )

  /** The k-th waiting buffer is as its caller left it. */
  ghost predicate InQueue(s: State, k: nat)
    requires k < |s.queue| && s.served + |s.queue| == |s.submitted|
  {
    && s.queue[k] < |s.bufs| && s.queue[k] in s.pending && s.pending[s.queue[k]] == s.served + k
    && var b, r := s.bufs[s.queue[k]], s.submitted[s.served + k];
    r == Request(s.queue[k], b.blockno, b.dirty, b.data) && !(b.valid && !b.dirty)
  }

  /** A buffer inside iderw is waiting its turn, or has what the synchronous disk would give it. */
  ghost predicate Answered(s: State, b: nat)
    requires AllInRange(s.submitted, |s.image|) && b in s.pending
  {
    && b < |s.bufs| && s.pending[b] < |s.submitted| && s.submitted[s.pending[b]].buf == b
    && (s.pending[b] < s.served ==>
          && s.bufs[b].valid && !s.bufs[b].dirty
          && s.bufs[b].data == SyncResult(s.image, s.submitted, s.pending[b]))
  }

  /** Every return gave the caller what the synchronous disk would have given it, after the disk had
      completed the call; no call returns twice. */
  ghost predicate AnswersOk(s: State)
    requires AllInRange(s.submitted, |s.image|) && s.served <= |s.submitted|
  {
    && (forall i | 0 <= i < |s.answers| ::
          s.answers[i].call < s.served && s.answers[i].data == SyncResult(s.image, s.submitted, s.answers[i].call))
    && (forall i, j | 0 <= i < j < |s.answers| :: s.answers[i].call != s.answers[j].call)
    && (forall b, i | b in s.pending && 0 <= i < |s.answers| :: s.pending[b] != s.answers[i].call)
  }

  /** The head of the queue, and nothing else, is at the controller. */
  ghost function Active(queue: seq<nat>, bufs: seq<Buf>): (c: Option<Command>) {
    if queue != [] && queue[0] < |bufs| then
      var b := bufs[queue[0]]; Some(Command(b.blockno, b.dirty, b.data))
    else None
  }

  ghost predicate Ok(s: State) {
    && AllInRange(s.submitted, |s.image|)
    && Chained(s.queue, s.idequeue, s.qnext) && |s.qnext| == |s.bufs|
    && s.served + |s.queue| == |s.submitted|
    && (forall k | 0 <= k < |s.queue| :: InQueue(s, k))
    && (forall b | b in s.pending :: Answered(s, b))
    && s.disk == SyncRun(s.image, s.submitted[..s.served])
    && s.device == Active(s.queue, s.bufs)
    && AnswersOk(s)
  }

  // ---------------------------------------------------------------- steps

  datatype Step =
    | Change(b: nat, buf: Buf)   // the holder of a buffer changes it: contents, block, flags
    | Submit(b: nat)             // iderw up to its first wait
    | Interrupt                  // ideintr
    | Return(b: nat)             // iderw finds its request served

  predicate Enabled(s: State, t: Step) {
    match t
    case Change(b, _) => b < |s.bufs| && b !in s.pending
    case Submit(b) =>
      && b < |s.bufs| && b !in s.pending && !(s.bufs[b].valid && !s.bufs[b].dirty) && s.bufs[b].blockno < |s.disk|
      && |s.qnext| == |s.bufs| && (forall k | 0 <= k < |s.queue| :: s.queue[k] < |s.qnext|)
    case Interrupt =>
      s.idequeue == NONE ||
      (0 <= s.idequeue < |s.bufs| == |s.qnext| && s.device.Some? && s.device.value.blockno < |s.disk|
       && s.queue != [] && (s.qnext[s.idequeue] == NONE || 0 <= s.qnext[s.idequeue] < |s.bufs|))
    case Return(b) => b in s.pending && b < |s.bufs| && s.bufs[b].valid && !s.bufs[b].dirty
  }

  /** idestart on the head of the queue. */
  function Started(bufs: seq<Buf>, head: int): (c: Option<Command>)
    requires head == NONE || 0 <= head < |bufs|
  {
    if head == NONE then None else Some(Command(bufs[head].blockno, bufs[head].dirty, bufs[head].data))
  }

  /** iderw appends the buffer to the queue, and starts the disk if the queue was empty. */
  function Submitted(s: State, b: nat): (r: State)
    requires Enabled(s, Submit(b))
  {
    var x := s.bufs[b];
    var cleared := s.qnext[b := NONE];
    s.(idequeue := if s.queue == [] then b else s.idequeue,
    qnext := if s.queue == [] then cleared else cleared[s.queue[|s.queue| - 1] := b],
    device := if s.queue == [] then Started(s.bufs, b) else s.device,
    queue := s.queue + [b], submitted := s.submitted + [Request(b, x.blockno, x.dirty, x.data)],
    pending := s.pending[b := |s.submitted|])
  }

  /** The controller completes the active request, and ideintr starts the next one. */
  function Interrupted(s: State): (r: State)
    requires Enabled(s, Interrupt)
  {
    if s.idequeue == NONE then s
    else
      var cmd, b: nat := s.device.value, s.idequeue;
      var disk := if cmd.write then s.disk[cmd.blockno := cmd.data] else s.disk;
      var x := s.bufs[b];
      var data := if x.dirty then x.data else disk[cmd.blockno];
      var bufs := s.bufs[b := x.(valid := true, dirty := false, data := data)];
      s.(idequeue := s.qnext[b], device := Started(bufs, s.qnext[b]), disk := disk, bufs := bufs,
      queue := s.queue[1..], served := s.served + 1)
  }

  function Do(s: State, t: Step): (r: State)
    requires Enabled(s, t)
  {
    match t
    case Change(b, buf) => s.(bufs := s.bufs[b := buf])
    case Submit(b) => Submitted(s, b)
    case Interrupt => Interrupted(s)
    case Return(b) => s.(pending := s.pending - {b}, answers := s.answers + [Answer(s.pending[b], s.bufs[b].data)])
  }

  predicate Possible(s: State, steps: seq<Step>)
    decreases |steps|
  {
    steps == [] || (Enabled(s, steps[0]) && Possible(Do(s, steps[0]), steps[1..]))
  }

  function Exec(s: State, steps: seq<Step>): (r: State)
    requires Possible(s, steps)
    decreases |steps|
  {
    if steps == [] then s else Exec(Do(s, steps[0]), steps[1..])
  }

  /** ideinit: no requests. */
  function Begin(image: Device, bufs: seq<Buf>): (s: State) {
    State(bufs, NONE, seq(|bufs|, _ => NONE), None, image, image, [], [], 0, map[], [])
  }

  /** A request has been appended. */
  lemma Appended(s: State, s': State, b: nat, r: Request)
    requires Ok(s) && b < |s.bufs| && b !in s.pending && b !in s.queue
    requires r == Request(b, s.bufs[b].blockno, s.bufs[b].dirty, s.bufs[b].data) && r.blockno < |s.disk|
    requires !(s.bufs[b].valid && !s.bufs[b].dirty)
    requires s' == s.(idequeue := s'.idequeue, qnext := s'.qnext, device := s'.device,
                   queue := s.queue + [b], submitted := s.submitted + [r], pending := s.pending[b := |s.submitted|])
    requires Chained(s'.queue, s'.idequeue, s'.qnext) && |s'.qnext| == |s'.bufs|
             && s'.device == Active(s'.queue, s'.bufs)
    ensures Ok(s')
  {
    hide SyncRun, SyncResult, Chained, Active;
    assert s'.submitted[..s'.served] == s.submitted[..s.served];
    forall k | 0 <= k < |s'.queue| ensures InQueue(s', k) {
      if k < |s.queue| { assert InQueue(s, k); }
    }
    forall x | x in s'.pending ensures Answered(s', x) {
      if x != b {
        assert Answered(s, x);
        SyncResultStable(s.image, s.submitted, r, s.pending[x]);
      }
    }
    AnswersStay(s, s', b, r);
  }

  lemma AnswersStay(s: State, s': State, b: nat, r: Request)
    requires AllInRange(s.submitted, |s.image|) && s.served <= |s.submitted| && AnswersOk(s) && r.blockno < |s.image|
    requires s'.image == s.image && s'.served == s.served && s'.answers == s.answers
             && s'.submitted == s.submitted + [r]
    requires s'.pending == s.pending[b := |s.submitted|]
    ensures AllInRange(s'.submitted, |s'.image|) && AnswersOk(s')
  {
    hide SyncResult;
    forall i | 0 <= i < |s'.answers|
      ensures s'.answers[i].data == SyncResult(s'.image, s'.submitted, s'.answers[i].call)
    {
      SyncResultStable(s.image, s.submitted, r, s.answers[i].call);
    }
  }

  /** The head has been served. */
  lemma Served(s: State, s': State)
    requires Ok(s) && s.queue != [] && InQueue(s, 0)
    requires var b, r := s.queue[0], s.submitted[s.served];
             && r.blockno < |s.disk|
             && s' == s.(idequeue := s'.idequeue, device := s'.device, queue := s.queue[1..], served := s.served + 1,
                      disk := SyncDisk(s.disk, r),
                      bufs := s.bufs[b := s.bufs[b].(valid := true, dirty := false, data := SyncData(s.disk, r))])
    requires Chained(s'.queue, s'.idequeue, s'.qnext) && s'.device == Active(s'.queue, s'.bufs)
    ensures Ok(s')
  {
    var done := s.submitted[..s'.served];
    assert done[..|done| - 1] == s.submitted[..s.served] && done[|done| - 1] == s.submitted[s.served];
    forall k | 0 <= k < |s'.queue| ensures InQueue(s', k) {
      assert InQueue(s, k + 1);
    }
    forall x | x in s'.pending ensures Answered(s', x) {
      assert Answered(s, x);
      if s.pending[x] < s.served { assert x != s.queue[0]; }
    }
  }

  /** What the interrupt handler finds when the queue is not empty. */
  lemma HeadFacts(s: State)
    requires Ok(s)
    ensures s.idequeue == NONE <==> s.queue == []
    ensures s.queue != [] ==>
              && s.served + |s.queue| == |s.submitted| && InQueue(s, 0) && LinkedAt(s.queue, s.qnext, 0)
              && s.idequeue == s.queue[0] && |s.qnext| == |s.bufs|
              && Chained(s.queue, s.idequeue, s.qnext) && s.device == Active(s.queue, s.bufs)
              && s.submitted[s.served].blockno < |s.disk|
    ensures |s.queue| > 1 ==> s.queue[1] < |s.bufs| && s.queue[1] != s.queue[0]
  {
    if |s.queue| > 0 { assert LinkedAt(s.queue, s.qnext, 0) && InQueue(s, 0); }
    if |s.queue| > 1 { assert InQueue(s, 1); }
  }

  /** The holder of a buffer that is not inside iderw changes it. */
  lemma Changed(s: State, b: nat, buf: Buf)
    requires Ok(s) && b < |s.bufs| && b !in s.pending
    ensures Ok(s.(bufs := s.bufs[b := buf]))
  {
    var s' := s.(bufs := s.bufs[b := buf]);
    forall k | 0 <= k < |s'.queue| ensures InQueue(s', k) { assert InQueue(s, k); }
    forall x | x in s'.pending ensures Answered(s', x) { assert Answered(s, x); }
    if s.queue != [] { assert InQueue(s, 0); }
  }

  /** A caller has returned. */
  lemma Left(s: State, b: nat)
    requires Ok(s) && b in s.pending && b < |s.bufs| && s.pending[b] < s.served
    ensures Ok(s.(pending := s.pending - {b}, answers := s.answers + [Answer(s.pending[b], s.bufs[b].data)]))
  {
    var s' := s.(pending := s.pending - {b}, answers := s.answers + [Answer(s.pending[b], s.bufs[b].data)]);
    assert Answered(s, b);
    forall k | 0 <= k < |s'.queue| ensures InQueue(s', k) { assert InQueue(s, k); }
    forall x | x in s'.pending ensures Answered(s', x) && s.pending[x] != s.pending[b] { assert Answered(s, x); }
  }

  /** A caller still waiting sees a buffer that is not ready. */
  lemma NotYet(s: State, b: nat)
    requires Ok(s) && b in s.pending && s.pending[b] >= s.served
    ensures b < |s.bufs| && !(s.bufs[b].valid && !s.bufs[b].dirty)
  {
    assert Answered(s, b);
    assert InQueue(s, s.pending[b] - s.served);
  }

  lemma QueueFacts(s: State, b: nat)
    requires Ok(s) && b !in s.pending
    ensures |s.qnext| == |s.bufs| && Chained(s.queue, s.idequeue, s.qnext) && b !in s.queue
    ensures s.idequeue == NONE <==> s.queue == []
    ensures forall k | 0 <= k < |s.queue| :: s.queue[k] < |s.qnext|
  {
    forall k | 0 <= k < |s.queue| ensures s.queue[k] != b && s.queue[k] < |s.qnext| { assert InQueue(s, k); }
  }

  lemma SubmitKeeps(s: State, b: nat)
    requires Ok(s) && Enabled(s, Submit(b))
    ensures Ok(Do(s, Submit(b)))
  {
    var s', x := Do(s, Submit(b)), s.bufs[b];
    forall k | 0 <= k < |s.queue| ensures s.queue[k] != b { assert InQueue(s, k); }
    AppendChain(s.queue, s.qnext, b, s'.qnext);
    Appended(s, s', b, Request(b, x.blockno, x.dirty, x.data));
  }

  lemma InterruptKeeps(s: State)
    requires Ok(s) && Enabled(s, Interrupt)
    ensures Ok(Do(s, Interrupt))
  {
    hide Ok, SyncRun, Answered, AllInRange, AnswersOk;
    HeadFacts(s);
    if s.idequeue != NONE {
      TailChain(s.queue, s.qnext[s.idequeue], s.qnext);
      Served(s, Do(s, Interrupt));
    }
  }

  lemma InvStep(s: State, t: Step)
    requires Ok(s) && Enabled(s, t)
    ensures Ok(Do(s, t))
  {
    match t
    case Change(b, buf) => Changed(s, b, buf);
    case Submit(b) => SubmitKeeps(s, b);
    case Interrupt => InterruptKeeps(s);
    case Return(b) =>
      if s.pending[b] >= s.served { NotYet(s, b); } else { Left(s, b); }
  }

  lemma {:induction false} ExecKeeps(s: State, steps: seq<Step>)
    requires Ok(s) && Possible(s, steps)
    ensures Ok(Exec(s, steps))
    decreases |steps|
  {
    if steps != [] {
      InvStep(s, steps[0]);
      ExecKeeps(Do(s, steps[0]), steps[1..]);
    }
  }

  lemma CanInterrupt(s: State)
    requires Ok(s)
    ensures Enabled(s, Interrupt)
  {
    HeadFacts(s);
    if s.queue != [] { assert InQueue(s, 0) && LinkedAt(s.queue, s.qnext, 0); }
  }

  lemma SubmitFacts(s: State, b: nat)
    requires Ok(s) && b < |s.bufs| && b !in s.pending && !(s.bufs[b].valid && !s.bufs[b].dirty)
             && s.bufs[b].blockno < |s.disk|
    ensures Enabled(s, Submit(b)) && Do(s, Submit(b)) == Submitted(s, b) && Ok(Submitted(s, b))
  {
    hide Ok;
    QueueFacts(s, b);
    SubmitKeeps(s, b);
  }

  lemma InterruptFacts(s: State)
    requires Ok(s)
    ensures Enabled(s, Interrupt) && Do(s, Interrupt) == Interrupted(s) && Ok(Interrupted(s))
    ensures s.idequeue != NONE ==>
              0 <= s.idequeue < |s.bufs| == |s.qnext| && s.device.Some? && s.device.value.blockno < |s.disk|
    ensures s.idequeue != NONE ==> s.queue != [] && (s.qnext[s.idequeue] == NONE || 0 <= s.qnext[s.idequeue] < |s.bufs|)
  {
    hide Ok;
    CanInterrupt(s);
    InterruptKeeps(s);
  }

  /** The queue refines the synchronous disk. In every interleaving of any number of callers, which may use
      the same buffer again and again, and of interrupts: requests are served in the order of submission,
      only the head of the queue is at the controller, the disk is what memide.c's iderw would have made of
      the requests served so far, and each call returns once, after it was served, with the contents
      memide.c's iderw would have left in its buffer. */
  lemma QueueRefinesSynchronousDisk(image: Device, bufs: seq<Buf>, steps: seq<Step>)
    requires Possible(Begin(image, bufs), steps)
    ensures var s := Exec(Begin(image, bufs), steps);
            && s.image == image && AllInRange(s.submitted, |image|) && s.served + |s.queue| == |s.submitted|
            && (forall k | 0 <= k < |s.queue| :: s.queue[k] == s.submitted[s.served + k].buf)
            && s.device == Active(s.queue, s.bufs) && Enabled(s, Interrupt)
            && s.disk == SyncRun(image, s.submitted[..s.served])
            && (forall i | 0 <= i < |s.answers| ::
                  s.answers[i].call < s.served
                  && s.answers[i].data == SyncResult(image, s.submitted, s.answers[i].call))
            && (forall i, j | 0 <= i < j < |s.answers| :: s.answers[i].call != s.answers[j].call)
  {
    var s0 := Begin(image, bufs);
    ExecKeeps(s0, steps);
    ExecImage(s0, steps);
    var s := Exec(s0, steps);
    CanInterrupt(s);
    forall k | 0 <= k < |s.queue| ensures s.queue[k] == s.submitted[s.served + k].buf { assert InQueue(s, k); }
  }

  lemma {:induction false} ExecImage(s: State, steps: seq<Step>)
    requires Possible(s, steps)
    ensures Exec(s, steps).image == s.image
    decreases |steps|
  {
    if steps != [] { ExecImage(Do(s, steps[0]), steps[1..]); }
  }

  /** The same without the synchronous disk: on every run each block of the disk is what the last served request
      that wrote it wrote; a write returns with its own data, and a read with what was last written to its block
      by a request submitted before it. */
  lemma DiskHoldsLastWrite(image: Device, bufs: seq<Buf>, steps: seq<Step>)
    requires Possible(Begin(image, bufs), steps)
    ensures var s := Exec(Begin(image, bufs), steps);
            && AllInRange(s.submitted, |image|) && s.served <= |s.submitted| && |s.disk| == |image|
            && (forall b | 0 <= b < |image| :: AsWritten(image, s.submitted, s.served, b, s.disk[b]))
            && (forall i | 0 <= i < |s.answers| ::
                  && s.answers[i].call < s.served
                  && var call, r := s.answers[i].call, s.submitted[s.answers[i].call];
                  if r.dirty then s.answers[i].data == r.data
                  else AsWritten(image, s.submitted, call, r.blockno, s.answers[i].data))
  {
    hide Possible, Exec, SyncRun, AsWritten, Ok;
    QueueRefinesSynchronousDisk(image, bufs, steps);
    var s := Exec(Begin(image, bufs), steps);
    forall b | 0 <= b < |image| ensures AsWritten(image, s.submitted, s.served, b, s.disk[b]) {
      SyncReadsPart(image, s.submitted, s.served, b);
    }
    forall i | 0 <= i < |s.answers|
      ensures s.answers[i].call < s.served
      ensures var call, r := s.answers[i].call, s.submitted[s.answers[i].call];
              if r.dirty then s.answers[i].data == r.data
              else AsWritten(image, s.submitted, call, r.blockno, s.answers[i].data)
    {
      SyncReadsPart(image, s.submitted, s.answers[i].call, s.submitted[s.answers[i].call].blockno);
    }
  }

  /** A call asks for what its buffer holds: block, direction and data as the holder last left them. */
  lemma SubmittedAsHeld(s: State, b: nat, buf: Buf)
    requires Ok(s) && Enabled(s, Change(b, buf)) && Enabled(Do(s, Change(b, buf)), Submit(b))
    ensures var r := Do(Do(s, Change(b, buf)), Submit(b));
            && r.submitted == s.submitted + [Request(b, buf.blockno, buf.dirty, buf.data)]
            && b in r.pending && r.pending[b] == |s.submitted| && r.queue == s.queue + [b] && r.disk == s.disk
  {
  }

  class Ide {
    var bufs: seq<Buf>
    var idequeue: int
    var qnext: seq<int>
    var device: Option<Command>
    var disk: Device
    ghost const image: Device
    ghost var queue: seq<nat>
    ghost var submitted: seq<Request>
    ghost var served: nat
    ghost var pending: map<nat, nat>
    ghost var answers: seq<Answer>

    ghost function Now(): (s: State)
      reads this
    {
      State(bufs, idequeue, qnext, device, disk, image, queue, submitted, served, pending, answers)
    }

    ghost predicate Valid()
      reads this
    {
      Ok(Now())
    }

    constructor (image: Device, bufs: seq<Buf>)
      ensures Valid() && Now() == Begin(image, bufs)
    {
      this.disk, this.bufs, this.image := image, bufs, image;
      idequeue, qnext, device := NONE, seq(|bufs|, _ => NONE), None;
      queue, submitted, served, pending, answers := [], [], 0, map[], [];
    }

    /** The holder of a buffer that is not inside iderw overwrites it. */
    method ChangeBuf(b: nat, buf: Buf)
      requires Valid() && b < |bufs| && b !in pending
      modifies this`bufs
      ensures Valid() && Now() == Do(old(Now()), Change(b, buf))
    {
      Changed(Now(), b, buf);
      bufs := bufs[b := buf];
    }

    /** idestart. */
    method Start(b: nat)
      requires b < |bufs|
      modifies this`device
      ensures device == Some(Command(bufs[b].blockno, bufs[b].dirty, bufs[b].data))
    {
      device := Some(Command(bufs[b].blockno, bufs[b].dirty, bufs[b].data));
    }

    /** iderw's append loop: the last buffer of a non-empty queue. */
    method Last() returns (p: nat)
      requires Chained(queue, idequeue, qnext) && idequeue != NONE
      ensures queue != [] && p == queue[|queue| - 1] && p < |qnext|
    {
      assert LinkedAt(queue, qnext, 0);
      p := idequeue;
      ghost var k := 0;
      while qnext[p] != NONE
        invariant 0 <= k < |queue| && p == queue[k] && LinkedAt(queue, qnext, k)
        decreases |queue| - k
      {
        p, k := qnext[p], k + 1;
        assert LinkedAt(queue, qnext, k);
      }
    }

    /** iderw up to its first wait. */
    method Enqueue(b: nat)
      requires Valid() && b < |bufs| && b !in pending
      requires !(bufs[b].valid && !bufs[b].dirty) && bufs[b].blockno < |disk|
      modifies this`qnext, this`idequeue, this`device, this`queue, this`submitted, this`pending
      ensures Valid() && Enabled(old(Now()), Submit(b)) && Now() == Do(old(Now()), Submit(b))
    {
      hide Ok, Chained, Enabled, Do;
      ghost var s := Now();
      QueueFacts(s, b);
      SubmitFacts(s, b);
      qnext := qnext[b := NONE];
      if idequeue == NONE {
        idequeue := b;
        Start(b);
      } else {
        KeepChain(queue, idequeue, s.qnext, b);
        var last := Last();
        qnext := qnext[last := b];
      }
      pending, submitted := pending[b := |submitted|],
                            submitted + [Request(b, bufs[b].blockno, bufs[b].dirty, bufs[b].data)];
      queue := queue + [b];
      assert Now() == Submitted(s, b);
    }

    /** ideintr, when the controller has finished the active request; on an empty queue it does nothing. */
    method Ideintr()
      requires Valid()
      modifies this`bufs, this`idequeue, this`device, this`disk, this`queue, this`served
      ensures Valid() && Enabled(old(Now()), Interrupt) && Now() == Do(old(Now()), Interrupt)
    {
      hide Ok, Enabled, Do;
      ghost var s := Now();
      InterruptFacts(s);
      if idequeue == NONE {
        return;
      }
      var b := idequeue;
      var cmd := device.value;
      if cmd.write {
        disk := disk[cmd.blockno := cmd.data];       // the controller's part of a write
      }
      idequeue := qnext[b];
      if !bufs[b].dirty {
        bufs := bufs[b := bufs[b].(data := disk[cmd.blockno])];
      }
      bufs := bufs[b := bufs[b].(valid := true, dirty := false)];
      device := None;
      if idequeue != NONE {
        Start(idequeue);
      }
      queue, served := queue[1..], served + 1;
      assert Now() == Interrupted(s);
    }

    /** The test of iderw's wait loop: true when the call returns, which is exactly when it was served. */
    method Finished(b: nat) returns (done: bool)
      requires Valid() && b in pending
      modifies this`pending, this`answers
      ensures Valid() && (done <==> old(pending)[b] < served)
      ensures done ==> Enabled(old(Now()), Return(b)) && Now() == Do(old(Now()), Return(b))
      ensures done ==> bufs[b].data == SyncResult(image, submitted, old(pending)[b])
      ensures !done ==> Now() == old(Now())
    {
      assert Answered(Now(), b);
      if pending[b] >= served {
        NotYet(Now(), b);
      } else {
        Left(Now(), b);
      }
      done := bufs[b].valid && !bufs[b].dirty;
      if done {
        pending, answers := pending - {b}, answers + [Answer(pending[b], bufs[b].data)];
      }
    }
  }

  lemma KeepChain(queue: seq<nat>, head: int, qnext: seq<int>, b: nat)
    requires Chained(queue, head, qnext) && b !in queue && b < |qnext|
    ensures Chained(queue, head, qnext[b := NONE])
  {
    var q' := qnext[b := NONE];
    forall k | 0 <= k < |queue| ensures LinkedAt(queue, q', k) { assert LinkedAt(queue, qnext, k); }
  }

  lemma AppendChain(queue: seq<nat>, qnext: seq<int>, b: nat, qnext': seq<int>)
    requires Chained(queue, if queue == [] then NONE else queue[0], qnext) && b !in queue && b < |qnext|
    requires queue == [] ==> qnext' == qnext[b := NONE]
    requires queue != [] ==> queue[|queue| - 1] < |qnext| && qnext' == qnext[b := NONE][queue[|queue| - 1] := b]
    ensures Chained(queue + [b], (queue + [b])[0], qnext')
  {
    var q := queue + [b];
    forall k | 0 <= k < |q| ensures LinkedAt(q, qnext', k) {
      if k < |queue| { assert LinkedAt(queue, qnext, k); }
    }
  }

  lemma TailChain(queue: seq<nat>, head: int, qnext: seq<int>)
    requires queue != [] && (forall k | 0 <= k < |queue| :: LinkedAt(queue, qnext, k)) && queue[0] < |qnext|
    requires head == qnext[queue[0]] && forall j, k | 0 <= j < k < |queue| :: queue[j] != queue[k]
    ensures Chained(queue[1..], head, qnext)
  {
    var q := queue[1..];
    assert LinkedAt(queue, qnext, 0);
    forall k | 0 <= k < |q| ensures LinkedAt(q, qnext, k) { assert LinkedAt(queue, qnext, k + 1); }
  }
}
