/** The group-commit protocol of log.c as an interleaving of any number of processes: begin_op,
    log_write (whose size test is made outside the lock), end_op, and the commit's block writes. */
module GroupCommit {
  import opened Common
  import opened Disk
  import opened Crash
  import BufferCache

  const NBUF := BufferCache.NBUF
  const MAXOPBLOCKS := 10

  /** What one process is doing with the log. */
  datatype Phase =
    | Outside                                              // no operation open
    | InOp(spent: set<nat>)                                // between begin_op and end_op; blocks logged so far
    | Storing(spent: set<nat>, bno: nat, data: Block)      // in log_write, past the size test
    | Committing(k: nat, d0: Device)                       // k commit writes issued since the device was d0
  {
    predicate Active() { InOp? || Storing? }
  }

  datatype Event = Begin(p: nat) | Update(p: nat, b: nat, data: Block) | End(p: nat)

  datatype State = State(
    procs: seq<Phase>,
    lh: seq<nat>,          // lh.block[..lh.n]
    outstanding: int,
    committing: bool,
    view: Device,          // contents as read through the cache
    disk: Device,
    hist: seq<Event>,      // everything processes have done
    cut: nat               // how much of hist the last finished commit made durable
  )

  /** The log area, and how many distinct blocks one operation may log. */
  datatype Config = Config(l: Layout, opBlocks: nat, size: nat) {
    predicate Ok() {
      l.Fits(size) && opBlocks <= MAXOPBLOCKS && size <= LIMIT32
    }

    /** The log area can hold whatever the reservations admit. */
    predicate Roomy() {
      Ok() && MAXOPBLOCKS + 2 * opBlocks <= l.cap
    }

    /** No commit can write past the log area: it has a slot for every block the cache can keep pinned
        and still read another one, or for whatever the reservations admit, or none at all. */
    predicate Sound() {
      Ok() && (NBUF - 1 <= l.cap || MAXOPBLOCKS + 2 * opBlocks <= l.cap || l.cap == 0)
    }
  }

  // ---------------------------------------------------------------- histories

  /** Device contents after the updates of a history, from d. */
  function Replay(d: Device, hist: seq<Event>): (r: Device)
    ensures |r| == |d|
  {
    if hist == [] then d
    else
      var r := Replay(d, hist[..|hist| - 1]);
      match hist[|hist| - 1]
      case Update(_, b, data) => if b < |d| then r[b := data] else r
      case _ => r
  }

  /** Process p has begun an operation it has not ended. */
  predicate Open(hist: seq<Event>, p: nat) {
    hist != [] &&
    match hist[|hist| - 1]
    case Begin(q) => q == p || Open(hist[..|hist| - 1], p)
    case End(q) => q != p && Open(hist[..|hist| - 1], p)
    case Update(_, _, _) => Open(hist[..|hist| - 1], p)
  }

  /** Every operation that appears in the history appears from its beginning to its end. */
  ghost predicate WholeOps(hist: seq<Event>) {
    forall p: nat :: !Open(hist, p)
  }

  // ---------------------------------------------------------------- the protocol

  datatype Step =
    | BeginOp(p: nat)
    | TestSize(p: nat, b: nat, data: Block)
    | Store(p: nat)
    | EndOp(p: nat)
    | CommitWriteStep(p: nat)
    | CommitDone(p: nat)

  /** The contents a commit is about to log. */
  function Contents(s: State): (r: seq<Block>)
    requires forall i | 0 <= i < |s.lh| :: s.lh[i] < |s.view|
    ensures |r| == |s.lh|
  {
    seq(|s.lh|, i requires 0 <= i < |s.lh| => s.view[s.lh[i]])
  }

  /** log_write's size test panics. */
  predicate TestPanics(c: Config, s: State) {
    |s.lh| >= LOGSIZE || |s.lh| >= c.l.cap || s.outstanding < 1
  }

  /** The step can happen: the process is at that point, is not asleep and does not panic. With all NBUF
      buffers pinned by the log, the first bread of write_log panics (BufferCache.Bcache.NothingToRecycle). */
  predicate Enabled(c: Config, s: State, t: Step) {
    t.p < |s.procs| &&
    var ph := s.procs[t.p];
    match t
    case BeginOp(_) =>
      ph.Outside? && !s.committing && |s.lh| + (s.outstanding + 1) * MAXOPBLOCKS <= LOGSIZE
    case TestSize(_, b, _) =>
      && ph.InOp? && !TestPanics(c, s)
      && b < c.size && !c.l.InLog(b)
      && (b in ph.spent || |ph.spent| < c.opBlocks)
    case Store(_) => ph.Storing? && ph.bno < |s.view|
    case EndOp(_) => ph.InOp? && !s.committing
    case CommitWriteStep(_) =>
      && ph.Committing? && 0 < |s.lh| <= LOGSIZE && |s.lh| < NBUF && ph.k < 2 * |s.lh| + 2
      && (forall i | 0 <= i < |s.lh| :: s.lh[i] < |s.view| && s.lh[i] < LIMIT32)
      && c.l.start < |ph.d0|
      && CommitWrite(c.l, ph.d0[c.l.start], s.lh, Contents(s), ph.k).bno < |s.disk|
    case CommitDone(_) =>
      ph.Committing? && (if s.lh == [] then ph.k == 0 else ph.k == 2 * |s.lh| + 2)
  }

  function Do(c: Config, s: State, t: Step): (r: State)
    requires Enabled(c, s, t)
  {
    var ph := s.procs[t.p];
    match t
    case BeginOp(p) =>
      s.(procs := s.procs[p := InOp({})], outstanding := s.outstanding + 1, hist := s.hist + [Begin(p)])
    case TestSize(p, b, data) =>
      s.(procs := s.procs[p := Storing(ph.spent, b, data)])
    case Store(p) =>
      s.(procs := s.procs[p := InOp(ph.spent + {ph.bno})],
      lh := if ph.bno in s.lh then s.lh else s.lh + [ph.bno],
      view := s.view[ph.bno := ph.data],
      hist := s.hist + [Update(p, ph.bno, ph.data)])
    case EndOp(p) =>
      var last := s.outstanding - 1 == 0;
      s.(procs := s.procs[p := if last then Committing(0, s.disk) else Outside],
      outstanding := s.outstanding - 1,
      committing := last,
      hist := s.hist + [End(p)])
    case CommitWriteStep(p) =>
      var w := CommitWrite(c.l, ph.d0[c.l.start], s.lh, Contents(s), ph.k);
      s.(procs := s.procs[p := ph.(k := ph.k + 1)], disk := s.disk[w.bno := w.data])
    case CommitDone(p) =>
      s.(procs := s.procs[p := Outside], lh := [], committing := false, cut := |s.hist|)
  }

  /** Every step of the schedule can happen in turn. */
  predicate Possible(c: Config, s: State, steps: seq<Step>)
    decreases |steps|
  {
    steps == [] || (Enabled(c, s, steps[0]) && Possible(c, Do(c, s, steps[0]), steps[1..]))
  }

  function Exec(c: Config, s: State, steps: seq<Step>): (r: State)
    requires Possible(c, s, steps)
    decreases |steps|
  {
    if steps == [] then s else Exec(c, Do(c, s, steps[0]), steps[1..])
  }

  /** After initlog: nothing logged, nobody inside. */
  function Start(nproc: nat, image: Device): (s: State) {
    State(seq(nproc, _ => Outside), [], 0, false, image, image, [], 0)
  }

  // ---------------------------------------------------------------- counting

  function ActiveCount(ps: seq<Phase>): (n: nat) {
    if ps == [] then 0
    else ActiveCount(ps[..|ps| - 1]) + (if ps[|ps| - 1].Active() then 1 else 0)
  }

  /** What an operation may still add to the log. */
  function Unspent(ph: Phase, bound: nat): (n: int) {
    if ph.Active() then bound - |ph.spent| else 0
  }

  function Reserve(ps: seq<Phase>, bound: nat): (n: int) {
    if ps == [] then 0
    else Reserve(ps[..|ps| - 1], bound) + Unspent(ps[|ps| - 1], bound)
  }

  lemma {:induction false} ActiveCountUpdate(ps: seq<Phase>, p: nat, ph: Phase)
    requires p < |ps|
    ensures ActiveCount(ps[p := ph]) ==
            ActiveCount(ps) - (if ps[p].Active() then 1 else 0) + (if ph.Active() then 1 else 0)
  {
    var n := |ps| - 1;
    if p < n {
      ActiveCountUpdate(ps[..n], p, ph);
      assert ps[p := ph][..n] == ps[..n][p := ph];
    } else {
      assert ps[p := ph][..n] == ps[..n];
    }
  }

  lemma {:induction false} ReserveUpdate(ps: seq<Phase>, p: nat, ph: Phase, bound: nat)
    requires p < |ps|
    ensures Reserve(ps[p := ph], bound) == Reserve(ps, bound) - Unspent(ps[p], bound) + Unspent(ph, bound)
  {
    var n := |ps| - 1;
    if p < n {
      ReserveUpdate(ps[..n], p, ph, bound);
      assert ps[p := ph][..n] == ps[..n][p := ph];
    } else {
      assert ps[p := ph][..n] == ps[..n];
    }
  }

  ghost predicate WithinBound(ps: seq<Phase>, bound: nat) {
    forall p | 0 <= p < |ps| && ps[p].Active() :: |ps[p].spent| <= bound
  }

  /** Reservations are never negative and never exceed the bound per open operation. */
  lemma {:induction false} ReserveRange(ps: seq<Phase>, bound: nat)
    requires WithinBound(ps, bound)
    ensures 0 <= Reserve(ps, bound) <= bound * ActiveCount(ps)
  {
    if ps != [] {
      ReserveRange(ps[..|ps| - 1], bound);
    }
  }

  lemma {:induction false} ActiveCountPositive(ps: seq<Phase>, p: nat)
    requires p < |ps| && ps[p].Active()
    ensures ActiveCount(ps) >= 1
  {
    if p < |ps| - 1 {
      ActiveCountPositive(ps[..|ps| - 1], p);
    }
  }

  lemma {:induction false} ActiveCountZero(ps: seq<Phase>)
    requires ActiveCount(ps) == 0
    ensures forall p | 0 <= p < |ps| :: !ps[p].Active()
  {
    forall p | 0 <= p < |ps| ensures !ps[p].Active() {
      if ps[p].Active() { ActiveCountPositive(ps, p); }
    }
  }

  // ---------------------------------------------------------------- the counting invariant

  /** Who is counted, and how much of the log they may still use. */
  ghost predicate Counted(c: Config, s: State) {
    && s.outstanding == ActiveCount(s.procs)
    && WithinBound(s.procs, c.opBlocks)
    && |s.lh| + Reserve(s.procs, c.opBlocks) <= MAXOPBLOCKS + 2 * c.opBlocks
    && (s.committing ==> s.outstanding == 0)
    && (s.outstanding == 0 && !s.committing ==> s.lh == [])
    && (forall p | 0 <= p < |s.procs| && s.procs[p].Active() :: s.procs[p].spent <= (set b | b in s.lh))
    && (forall p | 0 <= p < |s.procs| && s.procs[p].Storing? ::
          s.procs[p].bno in s.procs[p].spent || |s.procs[p].spent| < c.opBlocks)
    && (forall p | 0 <= p < |s.procs| :: s.procs[p].Committing? ==> s.committing)
    && (forall p, q | 0 <= p < q < |s.procs| :: !(s.procs[p].Committing? && s.procs[q].Committing?))
    && (s.committing ==> exists p | 0 <= p < |s.procs| :: s.procs[p].Committing?)
  }

  lemma CountedBegin(c: Config, s: State, p: nat)
    requires c.Ok() && Counted(c, s) && Enabled(c, s, BeginOp(p))
    ensures Counted(c, Do(c, s, BeginOp(p)))
  {
    hide Reserve, ActiveCount;
    ActiveCountUpdate(s.procs, p, InOp({}));
    ReserveUpdate(s.procs, p, InOp({}), c.opBlocks);
    ReserveRange(s.procs, c.opBlocks);
    var n, B := s.outstanding, c.opBlocks;
    assert Reserve(s.procs, B) <= B * n;
    if n == 0 {
      assert |s.lh| == 0 && Reserve(s.procs, B) == 0;
    } else {
      assert (n + 1) * (MAXOPBLOCKS - B) >= 2 * (MAXOPBLOCKS - B);
      assert B * n + B == (n + 1) * MAXOPBLOCKS - (n + 1) * (MAXOPBLOCKS - B);
    }
  }

  lemma CountedTest(c: Config, s: State, p: nat, b: nat, data: Block)
    requires c.Ok() && Counted(c, s) && Enabled(c, s, TestSize(p, b, data))
    ensures Counted(c, Do(c, s, TestSize(p, b, data)))
  {
    var ph := Storing(s.procs[p].spent, b, data);
    ActiveCountUpdate(s.procs, p, ph);
    ReserveUpdate(s.procs, p, ph, c.opBlocks);
  }

  lemma CountedStore(c: Config, s: State, p: nat)
    requires c.Ok() && Counted(c, s) && Enabled(c, s, Store(p))
    ensures Counted(c, Do(c, s, Store(p)))
  {
    hide Reserve, ActiveCount;
    var ph := s.procs[p];
    var ph' := InOp(ph.spent + {ph.bno});
    ActiveCountUpdate(s.procs, p, ph');
    ReserveUpdate(s.procs, p, ph', c.opBlocks);
    ActiveCountPositive(s.procs, p);
    if ph.bno in ph.spent {
      assert ph.spent + {ph.bno} == ph.spent;
    }
  }

  lemma CountedEnd(c: Config, s: State, p: nat)
    requires c.Ok() && Counted(c, s) && Enabled(c, s, EndOp(p))
    ensures Counted(c, Do(c, s, EndOp(p)))
  {
    var r := Do(c, s, EndOp(p));
    ActiveCountUpdate(s.procs, p, r.procs[p]);
    ReserveUpdate(s.procs, p, r.procs[p], c.opBlocks);
    if r.outstanding == 0 { assert r.procs[p].Committing?; }
  }

  lemma CountedWrite(c: Config, s: State, p: nat)
    requires c.Ok() && Counted(c, s) && Enabled(c, s, CommitWriteStep(p))
    ensures Counted(c, Do(c, s, CommitWriteStep(p)))
  {
    hide CommitWrite, Contents, Word, PutHead;
    var ph := s.procs[p].(k := s.procs[p].k + 1);
    var r := Do(c, s, CommitWriteStep(p));
    assert r.procs == s.procs[p := ph];
    ActiveCountUpdate(s.procs, p, ph);
    ReserveUpdate(s.procs, p, ph, c.opBlocks);
    assert r.procs[p].Committing?;
  }

  lemma CountedDone(c: Config, s: State, p: nat)
    requires c.Ok() && Counted(c, s) && Enabled(c, s, CommitDone(p))
    ensures Counted(c, Do(c, s, CommitDone(p)))
  {
    ActiveCountUpdate(s.procs, p, Outside);
    ActiveCountZero(s.procs);
    ReserveRange(s.procs[p := Outside], c.opBlocks);
  }

  lemma CountedStep(c: Config, s: State, t: Step)
    requires c.Ok() && Counted(c, s) && Enabled(c, s, t)
    ensures Counted(c, Do(c, s, t))
  {
    match t
    case BeginOp(p) => CountedBegin(c, s, p);
    case TestSize(p, b, data) => CountedTest(c, s, p, b, data);
    case Store(p) => CountedStore(c, s, p);
    case EndOp(p) => CountedEnd(c, s, p);
    case CommitWriteStep(p) => CountedWrite(c, s, p);
    case CommitDone(p) => CountedDone(c, s, p);
  }

  // ---------------------------------------------------------------- the contents invariant

  /** What the last finished commit made durable. */
  function Base(image: Device, s: State): (d: Device)
    requires s.cut <= |s.hist|
    ensures |d| == |image|
  {
    Replay(image, s.hist[..s.cut])
  }

  ghost predicate HistoryExact(image: Device, s: State) {
    && s.cut <= |s.hist|
    && s.view == Replay(image, s.hist)
    && (forall p: nat :: Open(s.hist, p) <==> p < |s.procs| && s.procs[p].Active())
    && WholeOps(s.hist[..s.cut])
  }

  ghost predicate Shaped(c: Config, s: State) {
    && |s.view| == |s.disk| == c.size
    && GoodHomes(c.l, s.lh, c.size)
    && (forall p | 0 <= p < |s.procs| && s.procs[p].Storing? :: s.procs[p].bno < c.size && !c.l.InLog(s.procs[p].bno))
  }

  /** Every block that reads differently from the durable state is in the log. */
  ghost predicate Covered(c: Config, image: Device, s: State) {
    && s.cut <= |s.hist| && |image| == c.size && |s.view| == c.size
    && SameElsewhere(c.l, Base(image, s), s.lh, s.view)
  }

  /** The device is the durable state, or that state part-way through a commit of the log. */
  ghost predicate DeviceAt(c: Config, image: Device, s: State) {
    && s.cut <= |s.hist| && |image| == c.size && Shaped(c, s)
    && (!s.committing ==> Before(c.l, Base(image, s), s.disk))
    && (forall p | 0 <= p < |s.procs| && s.procs[p].Committing? :: CommitterAt(c, Base(image, s), s, s.procs[p]))
  }

  ghost predicate CommitterAt(c: Config, base: Device, s: State, ph: Phase)
    requires Shaped(c, s) && |base| == c.size && ph.Committing?
  {
    && Before(c.l, base, ph.d0)
    && (if s.lh == [] then ph.k == 0 && s.disk == ph.d0
        else ph.k <= 2 * |s.lh| + 2 && CommitAt(c.l, ph.d0, s.lh, Contents(s), ph.k, s.disk))
  }

  ghost predicate Inv(c: Config, image: Device, s: State) {
    && |image| == c.size
    && Counted(c, s)
    && Shaped(c, s)
    && HistoryExact(image, s)
    && Covered(c, image, s)
    && DeviceAt(c, image, s)
  }

  lemma HistoryExtend(image: Device, hist: seq<Event>, e: Event, cut: nat)
    requires cut <= |hist|
    ensures (hist + [e])[..cut] == hist[..cut]
    ensures Replay(image, hist + [e]) ==
            if e.Update? && e.b < |image| then Replay(image, hist)[e.b := e.data] else Replay(image, hist)
    ensures forall p: nat :: Open(hist + [e], p) == ((e.Begin? && e.p == p) || (!(e.End? && e.p == p) && Open(hist, p)))
  {
    assert (hist + [e])[..|hist|] == hist;
  }

  lemma InvBegin(c: Config, image: Device, s: State, p: nat)
    requires c.Ok() && Inv(c, image, s) && Enabled(c, s, BeginOp(p))
    ensures Inv(c, image, Do(c, s, BeginOp(p)))
  {
    hide Word, Counted;
    CountedStep(c, s, BeginOp(p));
    HistoryExtend(image, s.hist, Begin(p), s.cut);
  }

  lemma InvTest(c: Config, image: Device, s: State, t: Step)
    requires c.Ok() && Inv(c, image, s) && t.TestSize? && Enabled(c, s, t)
    ensures Inv(c, image, Do(c, s, t))
  {
    hide Word, Counted;
    CountedStep(c, s, t);
  }

  /** While an operation is open nobody commits: end_op's panic is unreachable. */
  lemma OpenMeansNotCommitting(c: Config, s: State, p: nat)
    requires Counted(c, s) && p < |s.procs| && s.procs[p].Active()
    ensures !s.committing && s.outstanding >= 1
    ensures forall q | 0 <= q < |s.procs| :: !s.procs[q].Committing?
  {
    ActiveCountPositive(s.procs, p);
  }

  lemma StoreShaped(c: Config, s: State, p: nat)
    requires c.Ok() && Shaped(c, s) && Enabled(c, s, Store(p)) && |Do(c, s, Store(p)).lh| <= c.l.cap
    ensures Shaped(c, Do(c, s, Store(p)))
  {
  }

  lemma StoreHistory(c: Config, image: Device, s: State, p: nat)
    requires HistoryExact(image, s) && |image| == c.size == |s.view| && Enabled(c, s, Store(p))
    ensures HistoryExact(image, Do(c, s, Store(p)))
    ensures Do(c, s, Store(p)).hist[..s.cut] == s.hist[..s.cut]
  {
    hide Word, Replay, Open, WholeOps;
    HistoryExtend(image, s.hist, Update(p, s.procs[p].bno, s.procs[p].data), s.cut);
  }

  lemma InvStore(c: Config, image: Device, s: State, p: nat)
    requires c.Ok() && Inv(c, image, s) && Enabled(c, s, Store(p)) && |Do(c, s, Store(p)).lh| <= c.l.cap
    ensures Inv(c, image, Do(c, s, Store(p)))
  {
    hide Word, Clean, Contents, HistoryExact, Reserve, ActiveCount, WithinBound, Replay;
    CountedStep(c, s, Store(p));
    StoreShaped(c, s, p);
    OpenMeansNotCommitting(c, s, p);
    StoreHistory(c, image, s, p);
  }

  lemma InvEnd(c: Config, image: Device, s: State, p: nat)
    requires c.Ok() && Inv(c, image, s) && Enabled(c, s, EndOp(p))
    ensures Inv(c, image, Do(c, s, EndOp(p)))
  {
    hide Word, Counted;
    CountedStep(c, s, EndOp(p));
    HistoryExtend(image, s.hist, End(p), s.cut);
  }

  lemma InvWrite(c: Config, image: Device, s: State, p: nat)
    requires c.Ok() && Inv(c, image, s) && Enabled(c, s, CommitWriteStep(p))
    ensures Inv(c, image, Do(c, s, CommitWriteStep(p)))
  {
    hide Word, PutHead;
    CountedStep(c, s, CommitWriteStep(p));
    CommitStep(c.l, s.procs[p].d0, s.lh, Contents(s), s.procs[p].k, s.disk);
  }

  lemma InvDone(c: Config, image: Device, s: State, p: nat)
    requires c.Ok() && Inv(c, image, s) && Enabled(c, s, CommitDone(p))
    ensures Inv(c, image, Do(c, s, CommitDone(p)))
  {
    hide Word, PutHead;
    CountedStep(c, s, CommitDone(p));
    ActiveCountZero(s.procs);
    assert s.hist[..|s.hist|] == s.hist;
  }

  /** Every step that leaves the log inside its area keeps the invariant. */
  lemma InvStep(c: Config, image: Device, s: State, t: Step)
    requires c.Ok() && Inv(c, image, s) && Enabled(c, s, t) && |Do(c, s, t).lh| <= c.l.cap
    ensures Inv(c, image, Do(c, s, t))
  {
    match t
    case BeginOp(p) => InvBegin(c, image, s, p);
    case TestSize(_, _, _) => InvTest(c, image, s, t);
    case Store(p) => InvStore(c, image, s, p);
    case EndOp(p) => InvEnd(c, image, s, p);
    case CommitWriteStep(p) => InvWrite(c, image, s, p);
    case CommitDone(p) => InvDone(c, image, s, p);
  }

  lemma {:induction false} StartCounted(c: Config, nproc: nat, image: Device)
    requires c.Ok()
    ensures Counted(c, Start(nproc, image))
    ensures ActiveCount(Start(nproc, image).procs) == Reserve(Start(nproc, image).procs, c.opBlocks) == 0
  {
    if nproc > 0 {
      StartCounted(c, nproc - 1, image);
      assert Start(nproc, image).procs[..nproc - 1] == Start(nproc - 1, image).procs;
    }
  }

  lemma StartInv(c: Config, nproc: nat, image: Device)
    requires c.Ok() && |image| == c.size && Clean(c.l, image)
    ensures Inv(c, image, Start(nproc, image))
  {
    hide Word;
    StartCounted(c, nproc, image);
  }

  /** The log stays inside its area on the whole run. */
  ghost predicate Contained(c: Config, s: State, steps: seq<Step>)
    requires Possible(c, s, steps)
    decreases |steps|
  {
    |s.lh| <= c.l.cap && (steps != [] ==> Contained(c, Do(c, s, steps[0]), steps[1..]))
  }

  /** With an area as large as what the reservations admit, every run is contained. */
  lemma {:induction false} RoomyContains(c: Config, s: State, steps: seq<Step>)
    requires c.Roomy() && Counted(c, s) && Possible(c, s, steps)
    ensures Contained(c, s, steps)
    decreases |steps|
  {
    ReserveRange(s.procs, c.opBlocks);
    if steps != [] {
      CountedStep(c, s, steps[0]);
      RoomyContains(c, Do(c, s, steps[0]), steps[1..]);
    }
  }

  lemma {:induction false} ExecKeeps(c: Config, image: Device, s: State, steps: seq<Step>)
    requires c.Ok() && Inv(c, image, s) && Possible(c, s, steps) && Contained(c, s, steps)
    ensures Inv(c, image, Exec(c, s, steps))
    decreases |steps|
  {
    if steps != [] {
      InvStep(c, image, s, steps[0]);
      ExecKeeps(c, image, Do(c, s, steps[0]), steps[1..]);
    }
  }

  // ---------------------------------------------------------------- a log that pins every buffer

  /** As many blocks are logged as there are buffers: no commit can write anything any more. */
  ghost predicate Stuck(c: Config, image: Device, s: State) {
    && |image| == c.size && |s.view| == |s.disk| == c.size
    && Counted(c, s) && |s.lh| >= NBUF
    && HistoryExact(image, s)
    && Before(c.l, Base(image, s), s.disk)
    && (forall p | 0 <= p < |s.procs| && s.procs[p].Committing? :: s.procs[p].k == 0)
  }

  lemma BecomesStuck(c: Config, image: Device, s: State, p: nat)
    requires c.Ok() && Inv(c, image, s) && Enabled(c, s, Store(p)) && |Do(c, s, Store(p)).lh| >= NBUF
    ensures Stuck(c, image, Do(c, s, Store(p)))
  {
    hide Word, Clean, Contents, HistoryExact, Reserve, ActiveCount, WithinBound, Replay;
    CountedStep(c, s, Store(p));
    OpenMeansNotCommitting(c, s, p);
    StoreHistory(c, image, s, p);
  }

  lemma StuckStep(c: Config, image: Device, s: State, t: Step)
    requires c.Ok() && Stuck(c, image, s) && Enabled(c, s, t)
    ensures Stuck(c, image, Do(c, s, t))
  {
    hide Word, Clean, Reserve, ActiveCount, WithinBound, Replay, Open, WholeOps;
    CountedStep(c, s, t);
    match t
    case Store(p) => StoreHistory(c, image, s, p);
    case EndOp(p) => HistoryExtend(image, s.hist, End(p), s.cut);
    case _ =>
  }

  /** With NBUF - 1 slots every step keeps the invariant, or leaves a log that pins every buffer. */
  lemma SoundStep(c: Config, image: Device, s: State, t: Step)
    requires c.Ok() && NBUF - 1 <= c.l.cap && (Inv(c, image, s) || Stuck(c, image, s)) && Enabled(c, s, t)
    ensures Inv(c, image, Do(c, s, t)) || Stuck(c, image, Do(c, s, t))
  {
    hide Inv, Stuck, Counted;
    if Stuck(c, image, s) {
      StuckStep(c, image, s, t);
    } else if |Do(c, s, t).lh| <= c.l.cap {
      InvStep(c, image, s, t);
    } else {
      InvFits(c, image, s);
      BecomesStuck(c, image, s, t.p);
    }
  }

  lemma InvFits(c: Config, image: Device, s: State)
    requires Inv(c, image, s)
    ensures |s.lh| <= c.l.cap
  {
  }

  lemma {:induction false} ExecSound(c: Config, image: Device, s: State, steps: seq<Step>)
    requires c.Ok() && NBUF - 1 <= c.l.cap && (Inv(c, image, s) || Stuck(c, image, s)) && Possible(c, s, steps)
    ensures Inv(c, image, Exec(c, s, steps)) || Stuck(c, image, Exec(c, s, steps))
    decreases |steps|
  {
    if steps != [] {
      SoundStep(c, image, s, steps[0]);
      ExecSound(c, image, Do(c, s, steps[0]), steps[1..]);
    }
  }

  /** Without slots every log_write panics. */
  lemma {:induction false} NothingLogged(c: Config, s: State, steps: seq<Step>)
    requires c.l.cap == 0 && s.lh == [] && (forall p | 0 <= p < |s.procs| :: !s.procs[p].Storing?)
             && Possible(c, s, steps)
    ensures Exec(c, s, steps).lh == [] && Contained(c, s, steps)
    decreases |steps|
  {
    if steps != [] {
      NothingLogged(c, Do(c, s, steps[0]), steps[1..]);
    }
  }

  // ---------------------------------------------------------------- main results

  /** How much of the history a crash now would preserve: everything once the header of the
      running commit is on the device, otherwise what the last finished commit covered. */
  ghost function DurableCut(s: State): (cut: nat) {
    if s.lh != [] && exists p | 0 <= p < |s.procs| :: s.procs[p].Committing? && s.procs[p].k > |s.lh|
    then |s.hist| else s.cut
  }

  lemma DurableNow(c: Config, image: Device, s: State, crashes: seq<nat>)
    requires c.Ok() && Inv(c, image, s)
    ensures DurableCut(s) <= |s.hist| && WholeOps(s.hist[..DurableCut(s)])
    ensures Recoverable(c.l, s.disk) && Survivable(c.l, s.disk, crashes)
    ensures Before(c.l, Replay(image, s.hist[..DurableCut(s)]), RecoverThrough(c.l, s.disk, crashes))
  {
    hide Word, PutHead;
    var base := Base(image, s);
    assert s.hist[..|s.hist|] == s.hist;
    if s.committing && s.lh != [] {
      var p :| 0 <= p < |s.procs| && s.procs[p].Committing?;
      var ph := s.procs[p];
      ActiveCountZero(s.procs);
      if ph.k <= |s.lh| {
        RecoverThroughClean(c.l, base, s.disk, crashes);
      } else if ph.k <= 2 * |s.lh| + 1 {
        RecoverThroughPending(c.l, ph.d0, s.lh, Contents(s), s.disk, crashes);
      } else {
        RecoverThroughAfter(c.l, ph.d0, s.lh, Contents(s), s.disk, crashes);
      }
    } else {
      RecoverThroughClean(c.l, base, s.disk, crashes);
    }
  }

  lemma DurableStuck(c: Config, image: Device, s: State, crashes: seq<nat>)
    requires c.Ok() && Stuck(c, image, s)
    ensures DurableCut(s) == s.cut <= |s.hist| && WholeOps(s.hist[..s.cut])
    ensures Recoverable(c.l, s.disk) && Survivable(c.l, s.disk, crashes)
    ensures Before(c.l, Base(image, s), RecoverThrough(c.l, s.disk, crashes))
  {
    hide Word, Counted;
    RecoverThroughClean(c.l, Base(image, s), s.disk, crashes);
  }

  // ---------------------------------------------------------------- what processes ask for

  /** At the end of the schedule, step i is process p's last call of log_write: for block b with this data. */
  ghost predicate LastCall(steps: seq<Step>, i: nat, p: nat, b: nat, data: Block) {
    i < |steps| && steps[i] == TestSize(p, b, data) && forall k | i < k < |steps| :: steps[k].p != p
  }

  /** Step j of the schedule completes the log_write(b) of process p that step i began with this data. */
  ghost predicate LogWrites(steps: seq<Step>, i: nat, j: nat, p: nat, b: nat, data: Block) {
    i < j < |steps| && steps[j] == Store(p) && LastCall(steps[..j], i, p, b, data)
  }

  /** The event is what the step stands for; for a completed log_write, the block and the data it was called with. */
  ghost predicate Stands(steps: seq<Step>, j: nat, e: Event)
    requires j < |steps|
  {
    match steps[j]
    case BeginOp(p) => e == Begin(p)
    case EndOp(p) => e == End(p)
    case Store(p) => e.Update? && e.p == p && exists i: nat :: LogWrites(steps, i, j, p, e.b, e.data)
    case _ => false
  }

  /** Number of steps that begin or end an operation or complete a log_write. */
  function Visible(steps: seq<Step>): (n: nat)
    ensures n <= |steps|
  {
    if steps == [] then 0
    else
      var t := steps[|steps| - 1];
      Visible(steps[..|steps| - 1]) + (if t.BeginOp? || t.EndOp? || t.Store? then 1 else 0)
  }

  /** The history is what the processes asked for, in the order of the steps. */
  ghost predicate AsAsked(steps: seq<Step>, hist: seq<Event>) {
    && |hist| == Visible(steps)
    && forall j | 0 <= j < |steps| && (steps[j].BeginOp? || steps[j].EndOp? || steps[j].Store?) ::
         Visible(steps[..j]) < |hist| && Stands(steps, j, hist[Visible(steps[..j])])
  }

  /** Every process past the size test holds the arguments of its last call. */
  ghost predicate HoldsCalls(steps: seq<Step>, s: State) {
    forall p | 0 <= p < |s.procs| && s.procs[p].Storing? ::
      exists i: nat :: LastCall(steps, i, p, s.procs[p].bno, s.procs[p].data)
  }

  lemma StandsLonger(steps: seq<Step>, t: Step, j: nat, e: Event)
    requires j < |steps| && Stands(steps, j, e)
    ensures Stands(steps + [t], j, e)
  {
    assert (steps + [t])[..j] == steps[..j];
    if steps[j].Store? {
      var i: nat :| LogWrites(steps, i, j, steps[j].p, e.b, e.data);
      assert LogWrites(steps + [t], i, j, steps[j].p, e.b, e.data);
    }
  }

  lemma VisiblePrefix(steps: seq<Step>, j: nat)
    requires j <= |steps|
    ensures Visible(steps[..j]) <= Visible(steps)
    decreases |steps|
  {
    if j < |steps| {
      VisiblePrefix(steps[..|steps| - 1], j);
      assert steps[..|steps| - 1][..j] == steps[..j];
    } else {
      assert steps[..j] == steps;
    }
  }

  /** A step adds to the history exactly what it stands for. */
  lemma HistStep(c: Config, steps: seq<Step>, s: State, t: Step)
    requires HoldsCalls(steps, s) && Enabled(c, s, t)
    ensures if t.BeginOp? || t.EndOp? || t.Store? then
              && |Do(c, s, t).hist| == |s.hist| + 1 && Do(c, s, t).hist[..|s.hist|] == s.hist
              && Stands(steps + [t], |steps|, Do(c, s, t).hist[|s.hist|])
            else Do(c, s, t).hist == s.hist
  {
    hide CommitWrite, Contents, Word, PutHead;
    if t.Store? {
      var ph := s.procs[t.p];
      var i: nat :| LastCall(steps, i, t.p, ph.bno, ph.data);
      assert (steps + [t])[..|steps|] == steps;
      assert LogWrites(steps + [t], i, |steps|, t.p, ph.bno, ph.data);
    }
  }

  lemma VisibleMore(steps: seq<Step>, t: Step)
    ensures Visible(steps + [t]) == Visible(steps) + (if t.BeginOp? || t.EndOp? || t.Store? then 1 else 0)
  {
    assert (steps + [t])[..|steps|] == steps;
  }

  lemma AsAskedStep(c: Config, steps: seq<Step>, s: State, t: Step)
    requires AsAsked(steps, s.hist) && HoldsCalls(steps, s) && Enabled(c, s, t)
    ensures AsAsked(steps + [t], Do(c, s, t).hist)
  {
    hide Do, Enabled, Stands, HoldsCalls, Visible;
    var all, r, n := steps + [t], Do(c, s, t), |steps|;
    HistStep(c, steps, s, t);
    VisibleMore(steps, t);
    forall j | 0 <= j < |all| && (all[j].BeginOp? || all[j].EndOp? || all[j].Store?)
      ensures Visible(all[..j]) < |r.hist| && Stands(all, j, r.hist[Visible(all[..j])])
    {
      assert all[..j] == steps[..j];
      if j < n {
        var k := Visible(steps[..j]);
        assert all[j] == steps[j] && k < |s.hist|;
        assert r.hist[k] == s.hist[k];
        StandsLonger(steps, t, j, s.hist[k]);
      } else {
        assert steps[..j] == steps;
      }
    }
  }

  lemma HoldsCallsStep(c: Config, steps: seq<Step>, s: State, t: Step)
    requires HoldsCalls(steps, s) && Enabled(c, s, t)
    ensures HoldsCalls(steps + [t], Do(c, s, t))
  {
    hide CommitWrite, Contents, Word, PutHead;
    var r := Do(c, s, t);
    forall p | 0 <= p < |r.procs| && r.procs[p].Storing?
      ensures exists i: nat :: LastCall(steps + [t], i, p, r.procs[p].bno, r.procs[p].data)
    {
      if p == t.p {
        assert LastCall(steps + [t], |steps|, p, r.procs[p].bno, r.procs[p].data);
      } else {
        var i: nat :| LastCall(steps, i, p, s.procs[p].bno, s.procs[p].data);
        assert LastCall(steps + [t], i, p, r.procs[p].bno, r.procs[p].data);
      }
    }
  }

  lemma {:induction false} ExecAsAsked(c: Config, done: seq<Step>, s: State, todo: seq<Step>)
    requires AsAsked(done, s.hist) && HoldsCalls(done, s) && Possible(c, s, todo)
    ensures AsAsked(done + todo, Exec(c, s, todo).hist)
    decreases |todo|
  {
    if todo == [] {
      assert done + todo == done;
    } else {
      AsAskedStep(c, done, s, todo[0]);
      HoldsCallsStep(c, done, s, todo[0]);
      ExecAsAsked(c, done + [todo[0]], Do(c, s, todo[0]), todo[1..]);
      assert done + [todo[0]] + todo[1..] == done + todo;
    }
  }

  /** The history of a run is what its processes asked for: each operation begun and ended, and each log_write
      with the block and the data it was called with, in the order of the steps. */
  lemma HistoryAsAsked(c: Config, nproc: nat, image: Device, steps: seq<Step>)
    requires Possible(c, Start(nproc, image), steps)
    ensures AsAsked(steps, Exec(c, Start(nproc, image), steps).hist)
  {
    ExecAsAsked(c, [], Start(nproc, image), steps);
    assert [] + steps == steps;
  }

  // ---------------------------------------------------------------- what a block reads as

  /** Event k is the last update of block b. */
  ghost predicate LastUpdate(hist: seq<Event>, k: nat, b: nat) {
    k < |hist| && hist[k].Update? && hist[k].b == b && forall j | k < j < |hist| :: hist[j].Update? ==> hist[j].b != b
  }

  /** A block reads as its last update left it, or as on the image if it has none. */
  lemma {:induction false} ReplayReads(image: Device, hist: seq<Event>, b: nat)
    requires b < |image|
    ensures forall k: nat | LastUpdate(hist, k, b) :: Replay(image, hist)[b] == hist[k].data
    ensures (forall k | 0 <= k < |hist| && hist[k].Update? :: hist[k].b != b) ==> Replay(image, hist)[b] == image[b]
  {
    if hist != [] {
      var n := |hist| - 1;
      ReplayReads(image, hist[..n], b);
      forall k: nat | LastUpdate(hist, k, b) ensures Replay(image, hist)[b] == hist[k].data {
        if k < n { assert LastUpdate(hist[..n], k, b); }
      }
    }
  }

  /** Step j completes a log_write of block b, and no later step does. */
  ghost predicate LastLogWrite(steps: seq<Step>, i: nat, j: nat, p: nat, b: nat, data: Block) {
    && LogWrites(steps, i, j, p, b, data)
    && forall i': nat, j': nat, p': nat, data': Block | j < j' :: !LogWrites(steps, i', j', p', b, data')
  }

  /** Block b is what its last log_write was called with, or what it was on the image if there was none. */
  ghost predicate AsLastWritten(steps: seq<Step>, image: Device, b: nat, now: Block)
    requires b < |image|
  {
    && (forall i: nat, j: nat, p: nat, data: Block | LastLogWrite(steps, i, j, p, b, data) :: now == data)
    && ((forall i: nat, j: nat, p: nat, data: Block :: !LogWrites(steps, i, j, p, b, data)) ==> now == image[b])
  }

  lemma {:induction false} VisibleAt(steps: seq<Step>, k: nat) returns (j: nat)
    requires k < Visible(steps)
    ensures j < |steps| && (steps[j].BeginOp? || steps[j].EndOp? || steps[j].Store?) && Visible(steps[..j]) == k
  {
    var n := |steps| - 1;
    if k < Visible(steps[..n]) {
      j := VisibleAt(steps[..n], k);
      assert steps[..n][..j] == steps[..j];
    } else {
      j := n;
    }
  }

  lemma VisibleLess(steps: seq<Step>, j: nat, j': nat)
    requires j < j' <= |steps| && (steps[j].BeginOp? || steps[j].EndOp? || steps[j].Store?)
    ensures Visible(steps[..j]) < Visible(steps[..j'])
  {
    VisiblePrefix(steps[..j'], j + 1);
    assert steps[..j'][..j + 1] == steps[..j + 1] && steps[..j + 1][..j] == steps[..j];
  }

  lemma OneCall(steps: seq<Step>, i: nat, i': nat, p: nat, b: nat, b': nat, data: Block, data': Block)
    requires LastCall(steps, i, p, b, data) && LastCall(steps, i', p, b', data')
    ensures b == b' && data == data'
  {
  }

  lemma AskedReads(steps: seq<Step>, image: Device, hist: seq<Event>, b: nat)
    requires AsAsked(steps, hist) && b < |image|
    ensures AsLastWritten(steps, image, b, Replay(image, hist)[b])
  {
    hide Replay, Visible;
    ReplayReads(image, hist, b);
    forall i: nat, j: nat, p: nat, data: Block | LastLogWrite(steps, i, j, p, b, data)
      ensures Replay(image, hist)[b] == data
    {
      var k := Visible(steps[..j]);
      assert Stands(steps, j, hist[k]);
      var i0: nat :| LogWrites(steps, i0, j, p, hist[k].b, hist[k].data);
      OneCall(steps[..j], i, i0, p, b, hist[k].b, data, hist[k].data);
      forall m | k < m < |hist| && hist[m].Update? ensures hist[m].b != b {
        var j' := VisibleAt(steps, m);
        if j' < j { VisibleLess(steps, j', j); }
        assert Stands(steps, j', hist[m]);
        var i': nat :| LogWrites(steps, i', j', hist[m].p, hist[m].b, hist[m].data);
      }
      assert LastUpdate(hist, k, b);
    }
    if forall i: nat, j: nat, p: nat, data: Block :: !LogWrites(steps, i, j, p, b, data) {
      forall m | 0 <= m < |hist| && hist[m].Update? ensures hist[m].b != b {
        var j' := VisibleAt(steps, m);
        assert Stands(steps, j', hist[m]);
        var i': nat :| LogWrites(steps, i', j', hist[m].p, hist[m].b, hist[m].data);
      }
    }
  }

  /** On every run, through the cache every block reads as its last log_write was called with; and so it does on
      the device whenever no operation is open and no commit under way. */
  lemma ReadsLastWritten(c: Config, nproc: nat, image: Device, steps: seq<Step>, b: nat)
    requires c.Sound() && |image| == c.size && Clean(c.l, image) && Possible(c, Start(nproc, image), steps)
    requires b < c.size && !c.l.InLog(b)
    ensures var s := Exec(c, Start(nproc, image), steps);
            && |s.view| == |s.disk| == c.size
            && AsLastWritten(steps, image, b, s.view[b])
            && (s.outstanding == 0 && !s.committing ==> AsLastWritten(steps, image, b, s.disk[b]))
  {
    hide Word, Recoverable, Survivable, RecoverThrough, Replay, AsLastWritten;
    var s := Exec(c, Start(nproc, image), steps);
    HistoryAsAsked(c, nproc, image, steps);
    ExecExact(c, nproc, image, steps);
    AskedReads(steps, image, s.hist, b);
  }

  /** On a sound run the cache shows the history, and at rest so does the device. */
  lemma ExecExact(c: Config, nproc: nat, image: Device, steps: seq<Step>)
    requires c.Sound() && |image| == c.size && Clean(c.l, image) && Possible(c, Start(nproc, image), steps)
    ensures var s := Exec(c, Start(nproc, image), steps);
            && |s.disk| == |s.view| == c.size && s.view == Replay(image, s.hist)
            && (s.outstanding == 0 && !s.committing ==>
                  forall b | 0 <= b < c.size && !c.l.InLog(b) :: s.disk[b] == s.view[b])
  {
    hide Word, Replay, Reserve, ActiveCount, WithinBound, Open, WholeOps;
    ExecInv(c, nproc, image, steps);
  }

  lemma ExecInv(c: Config, nproc: nat, image: Device, steps: seq<Step>)
    requires c.Sound() && |image| == c.size && Clean(c.l, image) && Possible(c, Start(nproc, image), steps)
    ensures var s := Exec(c, Start(nproc, image), steps); Inv(c, image, s) || Stuck(c, image, s)
  {
    hide Inv, Stuck, Counted;
    var s0 := Start(nproc, image);
    StartInv(c, nproc, image);
    StartCounted(c, nproc, image);
    if NBUF - 1 <= c.l.cap {
      ExecSound(c, image, s0, steps);
    } else {
      if c.l.cap == 0 { NothingLogged(c, s0, steps); } else { RoomyContains(c, s0, steps); }
      ExecKeeps(c, image, s0, steps);
    }
  }

  // ---------------------------------------------------------------- crash safety

  /** Group-commit isolation and crash safety over whole runs. After any interleaving of any number
      of processes, and any crashes during the recoveries that follow, the recovered device holds
      exactly the effect of a prefix of what the processes asked for, in which no operation is cut in half. */
  lemma OnlyWholeOperationsSurvive(c: Config, nproc: nat, image: Device, steps: seq<Step>, crashes: seq<nat>)
    requires c.Sound() && |image| == c.size && Clean(c.l, image)
    requires Possible(c, Start(nproc, image), steps)
    ensures var s := Exec(c, Start(nproc, image), steps);
            && AsAsked(steps, s.hist)
            && DurableCut(s) <= |s.hist| && WholeOps(s.hist[..DurableCut(s)])
            && Recoverable(c.l, s.disk) && Survivable(c.l, s.disk, crashes)
            && Before(c.l, Replay(image, s.hist[..DurableCut(s)]), RecoverThrough(c.l, s.disk, crashes))
  {
    hide Inv, Stuck, Counted, AsAsked;
    var s := Exec(c, Start(nproc, image), steps);
    HistoryAsAsked(c, nproc, image, steps);
    ExecInv(c, nproc, image, steps);
    if Inv(c, image, s) { DurableNow(c, image, s, crashes); } else { DurableStuck(c, image, s, crashes); }
  }

  // ---------------------------------------------------------------- log space

  /** s is reachable from the initial state. */
  ghost predicate Reachable(c: Config, nproc: nat, image: Device, s: State) {
    exists steps :: Possible(c, Start(nproc, image), steps) && Exec(c, Start(nproc, image), steps) == s
  }

  lemma {:induction false} ExecAppend(c: Config, s: State, steps: seq<Step>, t: Step)
    requires Possible(c, s, steps) && Enabled(c, Exec(c, s, steps), t)
    ensures Possible(c, s, steps + [t]) && Exec(c, s, steps + [t]) == Do(c, Exec(c, s, steps), t)
    decreases |steps|
  {
    if steps == [] {
      assert [t][1..] == [];
    } else {
      ExecAppend(c, Do(c, s, steps[0]), steps[1..], t);
      assert (steps + [t])[1..] == steps[1..] + [t];
    }
  }

  lemma ReachableStep(c: Config, nproc: nat, image: Device, s: State, t: Step)
    requires Reachable(c, nproc, image, s) && Enabled(c, s, t)
    ensures Reachable(c, nproc, image, Do(c, s, t))
  {
    var steps :| Possible(c, Start(nproc, image), steps) && Exec(c, Start(nproc, image), steps) == s;
    ExecAppend(c, Start(nproc, image), steps, t);
  }

  lemma {:induction false} ExecCounted(c: Config, s: State, steps: seq<Step>)
    requires c.Ok() && Counted(c, s) && Possible(c, s, steps)
    ensures Counted(c, Exec(c, s, steps))
    decreases |steps|
  {
    if steps != [] {
      CountedStep(c, s, steps[0]);
      ExecCounted(c, Do(c, s, steps[0]), steps[1..]);
    }
  }

  lemma ReachableCounted(c: Config, nproc: nat, image: Device, s: State)
    requires c.Ok() && Reachable(c, nproc, image, s)
    ensures Counted(c, s)
  {
    var steps :| Possible(c, Start(nproc, image), steps) && Exec(c, Start(nproc, image), steps) == s;
    StartCounted(c, nproc, image);
    ExecCounted(c, Start(nproc, image), steps);
  }

  /** Log-space bound: begin_op's admission test keeps the log and all unspent reservations within
      10 + 2 * opBlocks <= LOGSIZE, so the store into lh.block is in bounds although the size test
      is made outside the lock. */
  lemma LogSpaceBound(c: Config, nproc: nat, image: Device, s: State)
    requires c.Ok() && Reachable(c, nproc, image, s)
    ensures |s.lh| + Reserve(s.procs, c.opBlocks) <= MAXOPBLOCKS + 2 * c.opBlocks <= LOGSIZE
    ensures |s.lh| <= LOGSIZE
    ensures forall p | 0 <= p < |s.procs| && s.procs[p].Storing? :: s.procs[p].bno in s.lh || |s.lh| < LOGSIZE
  {
    ReachableCounted(c, nproc, image, s);
    ReserveRange(s.procs, c.opBlocks);
    forall p | 0 <= p < |s.procs| && s.procs[p].Storing?
      ensures s.procs[p].bno in s.lh || |s.lh| < LOGSIZE
    {
      if s.procs[p].bno !in s.lh {
        var ph := s.procs[p];
        var r := s.(procs := s.procs[p := InOp(ph.spent + {ph.bno})]);
        ReserveUpdate(s.procs, p, InOp(ph.spent + {ph.bno}), c.opBlocks);
        ReserveRange(r.procs, c.opBlocks);
      }
    }
  }

  /** A process inside an operation would panic in log_write's size test. */
  ghost predicate SomeonePanics(c: Config, s: State) {
    TestPanics(c, s) && exists p | 0 <= p < |s.procs| :: s.procs[p].InOp?
  }

  /** Blocks the witness run logs: those right after the log area. */
  function Spare(c: Config, m: nat): (r: seq<nat>)
    ensures |r| == m && forall i | 0 <= i < m :: r[i] == c.l.start + c.l.cap + 1 + i
  {
    seq(m, i => c.l.start + c.l.cap + 1 + i)
  }

  predicate EnoughBlocks(c: Config) {
    c.l.start + c.l.cap + 1 + LOGSIZE < c.size
  }

  /** Block b is updated with zeros only. */
  ghost predicate OnlyZeros(hist: seq<Event>, b: nat) {
    forall i | 0 <= i < |hist| && hist[i].Update? && hist[i].b == b :: hist[i].data == ZERO_BLOCK
  }

  /** A reachable state with m logged blocks: up to 10 of them left by finished operations while
      process 0 stays open, the rest shared evenly between processes 0 and 1. */
  ghost predicate Staged(c: Config, nproc: nat, image: Device, m: nat, s: State) {
    && Reachable(c, nproc, image, s) && nproc >= 2 && |s.procs| == nproc && |s.view| == c.size
    && s.lh == Spare(c, m) && !s.committing
    && s.procs[0].InOp?
    && (forall p | 2 <= p < nproc :: s.procs[p].Outside?)
    && s.disk == image && OnlyZeros(s.hist, c.l.start + c.l.cap + 1)
    && (if m <= MAXOPBLOCKS
        then s.outstanding == 1 && s.procs[1].Outside? && s.procs[0].spent == {}
        else s.outstanding == 2 && s.procs[1].InOp?
             && |s.procs[0].spent| == (m - MAXOPBLOCKS + 1) / 2 && |s.procs[1].spent| == (m - MAXOPBLOCKS) / 2)
  }

  /** Process p logs the next spare block. */
  lemma LogOne(c: Config, nproc: nat, image: Device, m: nat, s: State, p: nat) returns (r: State)
    requires c.Ok() && EnoughBlocks(c) && Reachable(c, nproc, image, s) && |s.view| == c.size
    requires p < |s.procs| && s.procs[p].InOp? && |s.procs[p].spent| < c.opBlocks
    requires s.lh == Spare(c, m) && m < c.l.cap && s.outstanding >= 1
    ensures Reachable(c, nproc, image, r)
    ensures r.lh == Spare(c, m + 1) && |r.view| == c.size
    ensures r.outstanding == s.outstanding && r.committing == s.committing
    ensures |r.procs| == |s.procs| && r.procs[p].InOp? && |r.procs[p].spent| == |s.procs[p].spent| + 1
    ensures r.procs == s.procs[p := r.procs[p]]
    ensures r.disk == s.disk && exists b :: r.hist == s.hist + [Update(p, b, ZERO_BLOCK)]
  {
    hide Word, Reserve, ActiveCount, Reachable, Exec;
    ReachableCounted(c, nproc, image, s);
    var b := c.l.start + c.l.cap + 1 + m;
    assert b !in s.lh;
    assert b !in s.procs[p].spent;
    var s1 := Do(c, s, TestSize(p, b, ZERO_BLOCK));
    ReachableStep(c, nproc, image, s, TestSize(p, b, ZERO_BLOCK));
    r := Do(c, s1, Store(p));
    ReachableStep(c, nproc, image, s1, Store(p));
    assert r.lh == Spare(c, m + 1);
  }

  lemma StagedStart(c: Config, nproc: nat, image: Device) returns (s: State)
    requires c.Ok() && nproc >= 2 && |image| == c.size
    ensures Staged(c, nproc, image, 0, s)
  {
    var s0 := Start(nproc, image);
    assert Possible(c, s0, []) && Exec(c, s0, []) == s0;
    s := Do(c, s0, BeginOp(0));
    ReachableStep(c, nproc, image, s0, BeginOp(0));
    assert s.lh == Spare(c, 0);
  }

  lemma StagedStep(c: Config, nproc: nat, image: Device, m: nat, s: State) returns (r: State)
    requires c.Ok() && EnoughBlocks(c) && c.opBlocks >= 1
    requires Staged(c, nproc, image, m, s)
    requires m < c.l.cap && m < MAXOPBLOCKS + 2 * c.opBlocks
    ensures Staged(c, nproc, image, m + 1, r)
  {
    if m < MAXOPBLOCKS {
      var s1 := Do(c, s, BeginOp(1));
      ReachableStep(c, nproc, image, s, BeginOp(1));
      var s2 := LogOne(c, nproc, image, m, s1, 1);
      r := Do(c, s2, EndOp(1));
      ReachableStep(c, nproc, image, s2, EndOp(1));
    } else if m == MAXOPBLOCKS {
      var s1 := Do(c, s, BeginOp(1));
      ReachableStep(c, nproc, image, s, BeginOp(1));
      r := LogOne(c, nproc, image, m, s1, 0);
    } else if (m - MAXOPBLOCKS) % 2 == 0 {
      r := LogOne(c, nproc, image, m, s, 0);
    } else {
      r := LogOne(c, nproc, image, m, s, 1);
    }
  }

  lemma {:induction false} StagedReach(c: Config, nproc: nat, image: Device, m: nat) returns (s: State)
    requires c.Ok() && EnoughBlocks(c) && c.opBlocks >= 1 && nproc >= 2 && |image| == c.size
    requires m <= c.l.cap && m <= MAXOPBLOCKS + 2 * c.opBlocks
    ensures Staged(c, nproc, image, m, s)
  {
    if m == 0 {
      s := StagedStart(c, nproc, image);
    } else {
      var s' := StagedReach(c, nproc, image, m - 1);
      s := StagedStep(c, nproc, image, m - 1, s');
    }
  }

  /** When the panic in log_write can happen: with at least two processes it is reachable exactly
      when the log area is not larger than 10 + 2 * opBlocks slots. */
  lemma PanicReachableIff(c: Config, nproc: nat, image: Device)
    requires c.Ok() && EnoughBlocks(c) && c.opBlocks >= 1 && nproc >= 2 && |image| == c.size
    ensures (exists s :: Reachable(c, nproc, image, s) && SomeonePanics(c, s)) <==>
            c.l.cap <= MAXOPBLOCKS + 2 * c.opBlocks
  {
    if c.l.cap <= MAXOPBLOCKS + 2 * c.opBlocks {
      var s := StagedReach(c, nproc, image, c.l.cap);
      assert SomeonePanics(c, s);
    } else {
      forall s | Reachable(c, nproc, image, s) && SomeonePanics(c, s) ensures false {
        ReachableCounted(c, nproc, image, s);
        ReserveRange(s.procs, c.opBlocks);
        var p :| 0 <= p < |s.procs| && s.procs[p].InOp?;
        ActiveCountPositive(s.procs, p);
      }
    }
  }

  /** Processes 0 and 1 both pass the size test with one slot left, and both store; the second stores
      `data`. */
  lemma RaceFrom(c: Config, nproc: nat, image: Device, s0: State, data: Block) returns (s: State)
    requires c.Ok() && EnoughBlocks(c) && c.l.cap >= 1 && Reachable(c, nproc, image, s0) && |s0.view| == c.size
    requires |s0.procs| >= 2 && s0.procs[0].InOp? && s0.procs[1].InOp? && s0.outstanding >= 1
    requires |s0.procs[0].spent| < c.opBlocks && |s0.procs[1].spent| < c.opBlocks && s0.lh == Spare(c, c.l.cap - 1)
    ensures Reachable(c, nproc, image, s) && s.lh == Spare(c, c.l.cap + 1)
    ensures s.view == s0.view[s.lh[c.l.cap - 1] := ZERO_BLOCK][s.lh[c.l.cap] := data] && |s.view| == c.size
    ensures |s.procs| == |s0.procs| && s.procs == s0.procs[0 := s.procs[0]][1 := s.procs[1]] && s.procs[0].InOp?
            && s.procs[1].InOp?
    ensures s.disk == s0.disk && s.outstanding == s0.outstanding && s.committing == s0.committing
    ensures s.hist == s0.hist + [Update(0, s.lh[c.l.cap - 1], ZERO_BLOCK)] + [Update(1, s.lh[c.l.cap], data)]
  {
    hide Reachable, Contents, CommitWrite, Word, PutHead;
    var b := c.l.start + c.l.cap + 1 + c.l.cap - 1;
    assert b !in s0.lh && b + 1 !in s0.lh;
    var s1 := Do(c, s0, TestSize(0, b, ZERO_BLOCK));
    ReachableStep(c, nproc, image, s0, TestSize(0, b, ZERO_BLOCK));
    var s2 := Do(c, s1, TestSize(1, b + 1, data));
    ReachableStep(c, nproc, image, s1, TestSize(1, b + 1, data));
    var s3 := Do(c, s2, Store(0));
    ReachableStep(c, nproc, image, s2, Store(0));
    s := Do(c, s3, Store(1));
    ReachableStep(c, nproc, image, s3, Store(1));
    assert s.lh == Spare(c, c.l.cap + 1);
  }

  /** Processes 0 and 1 are inside an operation, no one else is, and one block more is logged than the area
      holds; nothing has been committed yet. */
  ghost predicate Overrun(c: Config, nproc: nat, image: Device, data: Block, s: State) {
    && Reachable(c, nproc, image, s) && |s.procs| >= 2 && |s.view| == c.size && c.l.cap >= 1
    && s.lh == Spare(c, c.l.cap + 1) && s.lh[c.l.cap] < c.size && s.view[s.lh[c.l.cap]] == data
    && s.procs[0].InOp? && s.procs[1].InOp? && s.outstanding == 2 && !s.committing
    && s.disk == image && OnlyZeros(s.hist, c.l.start + c.l.cap + 1)
  }

  lemma OverrunReached(c: Config, nproc: nat, image: Device, data: Block) returns (s: State)
    requires c.Ok() && EnoughBlocks(c) && c.opBlocks >= 1 && nproc >= 2 && |image| == c.size
    requires 1 <= c.l.cap < MAXOPBLOCKS + 2 * c.opBlocks
    ensures Overrun(c, nproc, image, data, s)
  {
    hide Reachable;
    var s0 := StagedReach(c, nproc, image, c.l.cap - 1);
    if s0.procs[1].Outside? {
      ReachableStep(c, nproc, image, s0, BeginOp(1));
      s0 := Do(c, s0, BeginOp(1));
    }
    s := RaceFrom(c, nproc, image, s0, data);
  }

  /** Because the size test is made outside the lock, two processes can log one block more than the
      area holds: exactly when it has fewer than 10 + 2 * opBlocks slots (and any at all). mkfs makes
      29 slots for operations of up to 10 blocks. */
  lemma SizeTestRaceIff(c: Config, nproc: nat, image: Device)
    requires c.Ok() && EnoughBlocks(c) && c.opBlocks >= 1 && nproc >= 2 && |image| == c.size
    ensures (exists s :: Reachable(c, nproc, image, s) && |s.lh| > c.l.cap) <==>
            1 <= c.l.cap < MAXOPBLOCKS + 2 * c.opBlocks
  {
    if 1 <= c.l.cap < MAXOPBLOCKS + 2 * c.opBlocks {
      var s := OverrunReached(c, nproc, image, ZERO_BLOCK);
    } else {
      forall s | Reachable(c, nproc, image, s) ensures |s.lh| <= c.l.cap {
        LogSpaceBound(c, nproc, image, s);
        ReachableCounted(c, nproc, image, s);
        ReserveRange(s.procs, c.opBlocks);
        if c.l.cap == 0 {
          var steps :| Possible(c, Start(nproc, image), steps) && Exec(c, Start(nproc, image), steps) == s;
          NothingLogged(c, Start(nproc, image), steps);
        }
      }
    }
  }

  // ---------------------------------------------------------------- exactly when runs are crash safe

  /** Recovery of the device as it is now leaves the effect of some prefix of the history in which no
      operation is cut in half. */
  ghost predicate Survives(c: Config, image: Device, s: State, crashes: seq<nat>) {
    && Recoverable(c.l, s.disk) && Survivable(c.l, s.disk, crashes)
    && exists cut | 0 <= cut <= |s.hist| ::
         WholeOps(s.hist[..cut]) && Before(c.l, Replay(image, s.hist[..cut]), RecoverThrough(c.l, s.disk, crashes))
  }

  /** Both operations end; process 1 is about to commit. */
  lemma EndBoth(c: Config, nproc: nat, image: Device, s0: State) returns (s: State)
    requires Reachable(c, nproc, image, s0) && |s0.procs| >= 2 && s0.procs[0].InOp? && s0.procs[1].InOp?
    requires s0.outstanding == 2 && !s0.committing
    ensures Reachable(c, nproc, image, s) && s.procs == s0.procs[0 := Outside][1 := Committing(0, s0.disk)]
    ensures s.lh == s0.lh && s.view == s0.view && s.disk == s0.disk && s.hist == s0.hist + [End(0)] + [End(1)]
  {
    hide Reachable;
    var s1 := Do(c, s0, EndOp(0));
    ReachableStep(c, nproc, image, s0, EndOp(0));
    s := Do(c, s1, EndOp(1));
    ReachableStep(c, nproc, image, s1, EndOp(1));
  }

  /** k blocks of an overrun log have been written, the last one into the slot that is not there. */
  lemma {:induction false} LogWritten(c: Config, nproc: nat, image: Device, s0: State, k: nat) returns (s: State)
    requires c.Ok() && EnoughBlocks(c) && Reachable(c, nproc, image, s0) && |s0.procs| >= 2
             && s0.procs[1] == Committing(0, image)
    requires |image| == c.size == |s0.view| && s0.disk == image && s0.lh == Spare(c, c.l.cap + 1)
             && c.l.cap + 1 < NBUF && k <= c.l.cap + 1
    ensures Reachable(c, nproc, image, s) && s.procs == s0.procs[1 := Committing(k, image)]
    ensures s.lh == s0.lh && s.view == s0.view && s.hist == s0.hist
    ensures |s.disk| == c.size && s.disk[c.l.start] == image[c.l.start]
    ensures k > 0 ==> s.lh[k - 1] < |s.view| && s.disk[c.l.start + k] == s.view[s.lh[k - 1]]
  {
    hide Reachable, Word, PutHead;
    if k == 0 {
      s := s0;
    } else {
      var s1 := LogWritten(c, nproc, image, s0, k - 1);
      s := Do(c, s1, CommitWriteStep(1));
      ReachableStep(c, nproc, image, s1, CommitWriteStep(1));
    }
  }

  /** A block that is only ever zeroed reads as before or as zeros after any part of the history. */
  lemma {:induction false} OnlyZerosReplay(image: Device, hist: seq<Event>, b: nat)
    requires OnlyZeros(hist, b) && b < |image|
    ensures Replay(image, hist)[b] == image[b] || Replay(image, hist)[b] == ZERO_BLOCK
  {
    if hist != [] {
      var n := |hist| - 1;
      assert forall i | 0 <= i < n :: hist[..n][i] == hist[i];
      OnlyZerosReplay(image, hist[..n], b);
    }
  }

  lemma Third(x: Block) returns (r: Block)
    ensures r != x && r != ZERO_BLOCK
  {
    var one, two := ZERO_BLOCK[0 := 1], ZERO_BLOCK[0 := 2];
    assert one[0] != ZERO_BLOCK[0] && two[0] != ZERO_BLOCK[0] && one[0] != two[0];
    r := if x == one then two else one;
  }

  /** Recovery leaves block b different from what it is after any part of the history. */
  ghost predicate Lost(c: Config, image: Device, s: State, b: nat) {
    && Recoverable(c.l, s.disk) && Survivable(c.l, s.disk, []) && |s.disk| == |image| && b < |image| && !c.l.InLog(b)
    && var d := RecoverThrough(c.l, s.disk, []);
    && |d| == |image|
    && forall cut | 0 <= cut <= |s.hist| :: d[b] != Replay(image, s.hist[..cut])[b]
  }

  lemma NeverThat(c: Config, image: Device, s: State, b: nat)
    requires Clean(c.l, s.disk) && |s.disk| == |image| && b < |image| && !c.l.InLog(b)
    requires OnlyZeros(s.hist, b) && s.disk[b] != image[b] && s.disk[b] != ZERO_BLOCK
    ensures Lost(c, image, s, b)
  {
    hide Word, Replay, RecoverThrough, Recoverable, Survivable;
    RecoverThroughClean(c.l, s.disk, s.disk, []);
    forall cut | 0 <= cut <= |s.hist| ensures s.disk[b] != Replay(image, s.hist[..cut])[b] {
      OnlyZerosReplay(image, s.hist[..cut], b);
    }
  }

  /** A commit of an overrun log overwrites the block after the log area before anything is committed: no
      part of the history leaves that block as the recovered device has it. */
  lemma BlockLost(c: Config, nproc: nat, image: Device) returns (s: State)
    requires c.Ok() && EnoughBlocks(c) && c.opBlocks >= 1 && nproc >= 2 && |image| == c.size && Clean(c.l, image)
    requires 1 <= c.l.cap < NBUF - 1 && c.l.cap < MAXOPBLOCKS + 2 * c.opBlocks
    ensures Reachable(c, nproc, image, s) && Lost(c, image, s, c.l.start + c.l.cap + 1)
  {
    hide Reachable, Word, Possible, Exec, Lost;
    var b := c.l.start + c.l.cap + 1;
    var data := Third(image[b]);
    var s1 := OverrunReached(c, nproc, image, data);
    var s2 := EndBoth(c, nproc, image, s1);
    s := LogWritten(c, nproc, image, s2, c.l.cap + 1);
    NeverThat(c, image, s, b);
  }

  /** Every run of every interleaving is crash safe exactly when the log area has NBUF - 1 slots, or as many
      as the reservations admit, or none. mkfs makes NBUF - 1. */
  lemma CrashSafeIff(c: Config, nproc: nat, image: Device)
    requires c.Ok() && EnoughBlocks(c) && c.opBlocks >= 1 && nproc >= 2 && |image| == c.size && Clean(c.l, image)
    ensures (forall s, crashes :: Reachable(c, nproc, image, s) ==> Survives(c, image, s, crashes)) <==> c.Sound()
  {
    hide Word, Recoverable, Survivable, RecoverThrough, Before, Replay;
    if c.Sound() {
      forall s, crashes | Reachable(c, nproc, image, s) ensures Survives(c, image, s, crashes) {
        var steps :| Possible(c, Start(nproc, image), steps) && Exec(c, Start(nproc, image), steps) == s;
        OnlyWholeOperationsSurvive(c, nproc, image, steps, crashes);
      }
    } else {
      LostIsNotSurvived(c, nproc, image);
    }
  }

  lemma LostIsNotSurvived(c: Config, nproc: nat, image: Device)
    requires c.Ok() && EnoughBlocks(c) && c.opBlocks >= 1 && nproc >= 2 && |image| == c.size && Clean(c.l, image)
             && !c.Sound()
    ensures exists s :: Reachable(c, nproc, image, s) && !Survives(c, image, s, [])
  {
    hide Word, Reachable, Replay;
    var s := BlockLost(c, nproc, image);
  }

  // ---------------------------------------------------------------- a commit that cannot start

  /** Process p is committing and no step of the commit can happen. */
  ghost predicate CommitPanics(c: Config, s: State, p: nat) {
    p < |s.procs| && s.procs[p].Committing? && !Enabled(c, s, CommitWriteStep(p)) && !Enabled(c, s, CommitDone(p))
  }

  /** A run that logs as many blocks as there are buffers, with operations of 10 blocks and an area of 29
      slots (through the unlocked size test) or of 30: the commit at its end panics. */
  lemma FullLogReached(c: Config, nproc: nat, image: Device) returns (s: State)
    requires c.Ok() && EnoughBlocks(c) && c.opBlocks == MAXOPBLOCKS && nproc >= 2 && |image| == c.size
             && NBUF - 1 <= c.l.cap
    ensures Reachable(c, nproc, image, s) && |s.lh| == NBUF && CommitPanics(c, s, 1)
  {
    hide Reachable;
    var s1;
    if c.l.cap == NBUF - 1 {
      s1 := OverrunReached(c, nproc, image, ZERO_BLOCK);
    } else {
      s1 := StagedReach(c, nproc, image, NBUF);
    }
    s := EndBoth(c, nproc, image, s1);
  }
}
