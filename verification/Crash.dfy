/** The on-disk redo log: header block, the exact block writes that commit and recovery
    issue, and the all-or-nothing theorem over every crash point. */
module Crash {
  import opened Common
  import opened Disk

  const LOGSIZE := 30

  /** Where the log lives: header at `start`, data slots at start+1 .. start+cap. */
  datatype Layout = Layout(start: nat, cap: nat) {
    predicate Fits(size: nat) {
      cap <= LOGSIZE && start + cap < size
    }

    predicate InLog(b: nat) {
      start <= b <= start + cap
    }
  }

  /** Block numbers a transaction may carry: at most one slot each, outside the log. */
  predicate GoodHomes(l: Layout, homes: seq<nat>, size: nat) {
    && |homes| <= l.cap
    && l.Fits(size)
    && size <= LIMIT32
    && (forall i | 0 <= i < |homes| :: homes[i] < size && !l.InLog(homes[i]))
    && (forall i, j | 0 <= i < j < |homes| :: homes[i] != homes[j])
  }

  // ---------------------------------------------------------------- header block

  /** The block numbers a header block announces (`struct logheader` over the raw block). */
  function Announced(h: Block): (homes: seq<nat>)
    requires Word(h, 0) <= LOGSIZE
    ensures |homes| == Word(h, 0)
    ensures forall i | 0 <= i < |homes| :: homes[i] == Word(h, 1 + i)
  {
    seq(Word(h, 0), i requires 0 <= i < Word(h, 0) => Word(h, 1 + i))
  }

  /** The header block after the first k entries have been stored over it. */
  function PutEntries(h: Block, homes: seq<nat>, k: nat): (r: Block)
    requires k <= |homes| <= LOGSIZE
    requires forall i | 0 <= i < |homes| :: homes[i] < LIMIT32
    ensures Word(r, 0) == Word(h, 0)
    ensures forall i | 0 <= i < k :: Word(r, 1 + i) == homes[i]
  {
    if k == 0 then h else SetWord(PutEntries(h, homes, k - 1), k, homes[k - 1])
  }

  /** write_head: overwrites the count and the live entries, keeping stale ones. */
  function PutHead(h: Block, homes: seq<nat>): (r: Block)
    requires |homes| <= LOGSIZE
    requires forall i | 0 <= i < |homes| :: homes[i] < LIMIT32
    ensures Word(r, 0) == |homes|
    ensures Announced(r) == homes
  {
    PutEntries(SetWord(h, 0, |homes|), homes, |homes|)
  }

  lemma {:induction false} EntriesKeepOthers(h: Block, homes: seq<nat>, k: nat)
    requires k <= |homes| <= LOGSIZE
    requires forall i | 0 <= i < |homes| :: homes[i] < LIMIT32
    ensures forall j | k < j < WORDS :: Word(PutEntries(h, homes, k), j) == Word(h, j)
  {
    hide Word;
    if k > 0 { EntriesKeepOthers(h, homes, k - 1); }
  }

  lemma HeadWords(h: Block, homes: seq<nat>)
    requires |homes| <= LOGSIZE
    requires forall i | 0 <= i < |homes| :: homes[i] < LIMIT32
    ensures forall j | 0 <= j < WORDS ::
              Word(PutHead(h, homes), j) ==
              if j == 0 then |homes| else if j <= |homes| then homes[j - 1] else Word(h, j)
  {
    hide Word, PutEntries, SetWord;
    EntriesKeepOthers(SetWord(h, 0, |homes|), homes, |homes|);
  }

  /** The header block on the device, byte by byte: the count, then the block numbers, each as four bytes with the
      low one first; what is behind them stays as it was. */
  lemma HeadBytes(h: Block, homes: seq<nat>)
    requires |homes| <= LOGSIZE
    requires forall i | 0 <= i < |homes| :: homes[i] < LIMIT32
    ensures var r := PutHead(h, homes);
            && r[0] == |homes| && r[1] == r[2] == r[3] == 0
            && (forall i | 0 <= i < |homes| ::
                  && r[4 * i + 4] == homes[i] % 0x100 && r[4 * i + 5] == homes[i] / 0x100 % 0x100
                  && r[4 * i + 6] == homes[i] / 0x1_0000 % 0x100 && r[4 * i + 7] == homes[i] / 0x100_0000)
            && (forall x | 4 * |homes| + 4 <= x < BSIZE :: r[x] == h[x])
  {
    hide Word, PutHead;
    var r := PutHead(h, homes);
    HeadWords(h, homes);
    BytesOfWord(r, 0);
    forall i | 0 <= i < |homes|
      ensures r[4 * i + 4] == homes[i] % 0x100 && r[4 * i + 5] == homes[i] / 0x100 % 0x100
      ensures r[4 * i + 6] == homes[i] / 0x1_0000 % 0x100 && r[4 * i + 7] == homes[i] / 0x100_0000
    {
      BytesOfWord(r, i + 1);
    }
    forall x | 4 * |homes| + 4 <= x < BSIZE ensures r[x] == h[x] {
      BytesOfWord(r, x / 4);
      BytesOfWord(h, x / 4);
      assert x == 4 * (x / 4) + x % 4;
    }
  }

  // ---------------------------------------------------------------- write sequences

  /** The k-th block write of a commit. */
  function CommitWrite(l: Layout, h: Block, homes: seq<nat>, datas: seq<Block>, k: nat): (w: Write)
    requires |homes| == |datas| <= LOGSIZE && k < 2 * |homes| + 2
    requires forall i | 0 <= i < |homes| :: homes[i] < LIMIT32
  {
    var n := |homes|;
    if k < n then Write(l.start + 1 + k, datas[k])
    else if k == n then Write(l.start, PutHead(h, homes))
    else if k < 2 * n + 1 then Write(homes[k - n - 1], datas[k - n - 1])
    else Write(l.start, PutHead(PutHead(h, homes), []))
  }

  /** All block writes of a commit, in order: log data, header, home blocks, empty header. */
  function CommitWrites(l: Layout, h: Block, homes: seq<nat>, datas: seq<Block>): (ws: seq<Write>)
    requires |homes| == |datas| <= LOGSIZE
    requires forall i | 0 <= i < |homes| :: homes[i] < LIMIT32
    ensures |ws| == 2 * |homes| + 2
    ensures forall size | GoodHomes(l, homes, size) :: InRange(ws, size)
  {
    seq(2 * |homes| + 2, k requires 0 <= k < 2 * |homes| + 2 => CommitWrite(l, h, homes, datas, k))
  }

  /** A device on which recovery makes sense: the header announces a loggable transaction. */
  predicate Recoverable(l: Layout, d: Device) {
    && l.Fits(|d|)
    && Word(d[l.start], 0) <= l.cap
    && GoodHomes(l, Announced(d[l.start]), |d|)
  }

  /** The k-th block write recovery issues from device d. */
  function RecoverWrite(l: Layout, d: Device, k: nat): (w: Write)
    requires Recoverable(l, d) && k <= |Announced(d[l.start])|
    ensures w.bno < |d|
  {
    var homes := Announced(d[l.start]);
    if k < |homes| then Write(homes[k], d[l.start + 1 + k])
    else Write(l.start, PutHead(d[l.start], []))
  }

  /** All block writes recovery issues from device d. */
  function RecoverWrites(l: Layout, d: Device): (ws: seq<Write>)
    requires Recoverable(l, d)
    ensures |ws| == |Announced(d[l.start])| + 1
    ensures InRange(ws, |d|)
  {
    seq(|Announced(d[l.start])| + 1, k requires 0 <= k < |Announced(d[l.start])| + 1 => RecoverWrite(l, d, k))
  }

  // ---------------------------------------------------------------- phases of a device

  predicate Clean(l: Layout, d: Device) {
    l.Fits(|d|) && Word(d[l.start], 0) == 0 && |d| <= LIMIT32
  }

  /** No block outside the log and outside `homes` differs. */
  predicate SameElsewhere(l: Layout, d: Device, homes: seq<nat>, r: Device) {
    |r| == |d| && forall b | 0 <= b < |d| && !l.InLog(b) && b !in homes :: r[b] == d[b]
  }

  /** The transaction has not happened: every block outside the log is as in d. */
  predicate Before(l: Layout, d: Device, r: Device) {
    Clean(l, r) && SameElsewhere(l, d, [], r)
  }

  /** The transaction has happened: homes carry datas, all other blocks outside the log are as in d. */
  predicate After(l: Layout, d: Device, homes: seq<nat>, datas: seq<Block>, r: Device)
    requires GoodHomes(l, homes, |d|) && |datas| == |homes|
  {
    && Clean(l, r)
    && SameElsewhere(l, d, homes, r)
    && (forall i | 0 <= i < |homes| :: r[homes[i]] == datas[i])
  }

  /** Committed but not known to be installed: header and log hold the whole transaction. */
  predicate Pending(l: Layout, d: Device, homes: seq<nat>, datas: seq<Block>, r: Device)
    requires GoodHomes(l, homes, |d|) && |datas| == |homes|
  {
    && SameElsewhere(l, d, homes, r)
    && Word(r[l.start], 0) == |homes|
    && Announced(r[l.start]) == homes
    && (forall i | 0 <= i < |homes| :: r[l.start + 1 + i] == datas[i])
  }

  lemma ApplyNext(d: Device, ws: seq<Write>, k: nat)
    requires InRange(ws, |d|) && k < |ws|
    ensures Apply(d, ws[..k + 1]) == Apply(d, ws[..k])[ws[k].bno := ws[k].data]
  {
    assert ws[..k + 1][..k] == ws[..k];
  }

  /** What the first k writes of a commit from d have made of the device. */
  predicate CommitAt(l: Layout, d: Device, homes: seq<nat>, datas: seq<Block>, k: nat, r: Device)
    requires Clean(l, d) && GoodHomes(l, homes, |d|) && |datas| == |homes|
  {
    var n := |homes|;
    if k <= n then LoggedAt(l, d, homes, datas, k, r)
    else if k <= 2 * n + 1 then
      InstalledAt(l, d, homes, datas, k - n - 1, r)
    else After(l, d, homes, datas, r)
  }

  /** The first k log slots are filled and the header is still the old one. */
  predicate LoggedAt(l: Layout, d: Device, homes: seq<nat>, datas: seq<Block>, k: nat, r: Device)
    requires Clean(l, d) && GoodHomes(l, homes, |d|) && |datas| == |homes|
  {
    && Before(l, d, r)
    && r[l.start] == d[l.start]
    && (forall i | 0 <= i < k && i < |homes| :: r[l.start + 1 + i] == datas[i])
  }

  /** The transaction is pending and its first k blocks are at home. */
  predicate InstalledAt(l: Layout, d: Device, homes: seq<nat>, datas: seq<Block>, k: nat, r: Device)
    requires GoodHomes(l, homes, |d|) && |datas| == |homes|
  {
    && Pending(l, d, homes, datas, r)
    && (forall i | 0 <= i < k && i < |homes| :: r[homes[i]] == datas[i])
  }

  lemma LogStart(l: Layout, d: Device, homes: seq<nat>, datas: seq<Block>)
    requires Clean(l, d) && GoodHomes(l, homes, |d|) && |datas| == |homes|
    ensures LoggedAt(l, d, homes, datas, 0, d)
  {
  }

  lemma LogStep(l: Layout, d: Device, homes: seq<nat>, datas: seq<Block>, k: nat, r: Device)
    requires Clean(l, d) && GoodHomes(l, homes, |d|) && |datas| == |homes| && k < |homes|
    requires LoggedAt(l, d, homes, datas, k, r)
    ensures LoggedAt(l, d, homes, datas, k + 1, r[l.start + 1 + k := datas[k]])
  {
    hide Word, SetWord, PutHead, PutEntries;
  }

  lemma HeadStep(l: Layout, d: Device, homes: seq<nat>, datas: seq<Block>, r: Device)
    requires Clean(l, d) && GoodHomes(l, homes, |d|) && |datas| == |homes|
    requires LoggedAt(l, d, homes, datas, |homes|, r)
    ensures InstalledAt(l, d, homes, datas, 0, r[l.start := PutHead(d[l.start], homes)])
  {
    hide Word, SetWord, PutHead, PutEntries;
  }

  lemma InstallStep(l: Layout, d: Device, homes: seq<nat>, datas: seq<Block>, k: nat, r: Device)
    requires GoodHomes(l, homes, |d|) && |datas| == |homes| && k < |homes|
    requires InstalledAt(l, d, homes, datas, k, r)
    ensures InstalledAt(l, d, homes, datas, k + 1, r[homes[k] := datas[k]])
  {
    hide Word, SetWord, PutHead, PutEntries;
  }

  lemma EraseStep(l: Layout, d: Device, homes: seq<nat>, datas: seq<Block>, h: Block, r: Device)
    requires GoodHomes(l, homes, |d|) && |datas| == |homes|
    requires InstalledAt(l, d, homes, datas, |homes|, r)
    ensures After(l, d, homes, datas, r[l.start := PutHead(h, [])])
  {
    hide Word, SetWord, PutHead, PutEntries;
  }

  /** One more block write of a commit. */
  lemma CommitStep(l: Layout, d: Device, homes: seq<nat>, datas: seq<Block>, k: nat, r: Device)
    requires Clean(l, d) && GoodHomes(l, homes, |d|) && |datas| == |homes| && |r| == |d|
    requires k < 2 * |homes| + 2 && CommitAt(l, d, homes, datas, k, r)
    ensures var w := CommitWrite(l, d[l.start], homes, datas, k);
            w.bno < |r| && CommitAt(l, d, homes, datas, k + 1, r[w.bno := w.data])
  {
    hide Word, SetWord, PutHead, PutEntries, LoggedAt, InstalledAt, After;
    var n := |homes|;
    if k < n {
      LogStep(l, d, homes, datas, k, r);
    } else if k == n {
      HeadStep(l, d, homes, datas, r);
    } else if k < 2 * n + 1 {
      InstallStep(l, d, homes, datas, k - n - 1, r);
    } else {
      EraseStep(l, d, homes, datas, PutHead(d[l.start], homes), r);
    }
  }

  /** The device after the first k writes of a commit, for every k. */
  lemma {:induction false} CommitPrefix(l: Layout, d: Device, homes: seq<nat>, datas: seq<Block>, k: nat)
    requires Clean(l, d) && GoodHomes(l, homes, |d|) && |datas| == |homes|
    requires k <= 2 * |homes| + 2
    ensures CommitAt(l, d, homes, datas, k, Apply(d, CommitWrites(l, d[l.start], homes, datas)[..k]))
  {
    hide Word, SetWord, PutHead, PutEntries, LoggedAt, InstalledAt, After;
    var ws := CommitWrites(l, d[l.start], homes, datas);
    if k == 0 {
      assert ws[..0] == [];
      LogStart(l, d, homes, datas);
    } else {
      CommitPrefix(l, d, homes, datas, k - 1);
      ApplyNext(d, ws, k - 1);
      CommitStep(l, d, homes, datas, k - 1, Apply(d, ws[..k - 1]));
    }
  }

  /** A device with no announced transaction stays as it is under any prefix of recovery. */
  lemma RecoverPrefixClean(l: Layout, d: Device, j: nat)
    requires Clean(l, d) && j <= 1
    ensures Recoverable(l, d) && |RecoverWrites(l, d)| == 1
    ensures Before(l, d, Apply(d, RecoverWrites(l, d)[..j]))
  {
    hide Word, SetWord, PutHead, PutEntries;
    var ws := RecoverWrites(l, d);
    assert ws[..0] == [];
    if j == 1 {
      assert ws[0] == Write(l.start, PutHead(d[l.start], []));
      ApplyNext(d, ws, 0);
    }
  }

  /** What the first j writes of a recovery of a pending transaction have made of the device. */
  predicate RecoverAt(l: Layout, d: Device, homes: seq<nat>, datas: seq<Block>, j: nat, r: Device)
    requires GoodHomes(l, homes, |d|) && |datas| == |homes|
  {
    if j <= |homes| then InstalledAt(l, d, homes, datas, j, r) else After(l, d, homes, datas, r)
  }

  lemma PendingIsRecoverable(l: Layout, d: Device, homes: seq<nat>, datas: seq<Block>, x: Device)
    requires GoodHomes(l, homes, |d|) && |datas| == |homes| && Pending(l, d, homes, datas, x)
    ensures Recoverable(l, x) && |RecoverWrites(l, x)| == |homes| + 1
  {
    hide Word, SetWord, PutHead, PutEntries;
  }

  lemma PendingWrite(l: Layout, d: Device, homes: seq<nat>, datas: seq<Block>, x: Device, k: nat)
    requires GoodHomes(l, homes, |d|) && |datas| == |homes| && Pending(l, d, homes, datas, x)
    requires Recoverable(l, x) && k <= |homes|
    ensures RecoverWrite(l, x, k) ==
            if k < |homes| then Write(homes[k], datas[k]) else Write(l.start, PutHead(x[l.start], []))
  {
    hide Word, SetWord, PutHead, PutEntries;
  }

  /** The device after the first j writes of a recovery from x, for every j, when a transaction is pending. */
  lemma {:induction false} RecoverPrefixPending(l: Layout, d: Device, homes: seq<nat>, datas: seq<Block>, x: Device,
                                                j: nat)
    requires GoodHomes(l, homes, |d|) && |datas| == |homes| && Pending(l, d, homes, datas, x)
    requires j <= |homes| + 1
    ensures Recoverable(l, x) && |RecoverWrites(l, x)| == |homes| + 1
    ensures RecoverAt(l, d, homes, datas, j, Apply(x, RecoverWrites(l, x)[..j]))
  {
    hide Word, SetWord, PutHead, PutEntries, After, Pending, RecoverWrite, GoodHomes, Recoverable;
    PendingIsRecoverable(l, d, homes, datas, x);
    var ws := RecoverWrites(l, x);
    if j == 0 {
      assert ws[..0] == [];
    } else {
      RecoverPrefixPending(l, d, homes, datas, x, j - 1);
      ApplyNext(x, ws, j - 1);
      PendingWrite(l, d, homes, datas, x, j - 1);
      var r := Apply(x, ws[..j - 1]);
      if j <= |homes| {
        InstallStep(l, d, homes, datas, j - 1, r);
      } else {
        EraseStep(l, d, homes, datas, x[l.start], r);
      }
    }
  }

  // ---------------------------------------------------------------- repeated crashes

  /** Power fails during successive recoveries: the i-th one gets `crashes[i]` of its writes to
      the device (all of them if it issues fewer); the last one completes. */
  function RecoverThrough(l: Layout, d: Device, crashes: seq<nat>): (r: Device)
    requires Recoverable(l, d)
    requires Survivable(l, d, crashes)
    decreases |crashes|
  {
    var ws := RecoverWrites(l, d);
    if crashes == [] then Apply(d, ws)
    else RecoverThrough(l, Apply(d, ws[..Min(crashes[0], |ws|)]), crashes[1..])
  }

  /** Every interrupted recovery leaves a device on which recovery makes sense again. */
  predicate Survivable(l: Layout, d: Device, crashes: seq<nat>)
    requires Recoverable(l, d)
    decreases |crashes|
  {
    crashes == [] ||
    var ws := RecoverWrites(l, d);
    var d' := Apply(d, ws[..Min(crashes[0], |ws|)]);
    Recoverable(l, d') && Survivable(l, d', crashes[1..])
  }

  lemma {:induction false} RecoverThroughClean(l: Layout, d0: Device, x: Device, crashes: seq<nat>)
    requires Clean(l, x) && SameElsewhere(l, d0, [], x)
    ensures Recoverable(l, x) && Survivable(l, x, crashes)
    ensures Before(l, d0, RecoverThrough(l, x, crashes))
    decreases |crashes|
  {
    hide Word, SetWord, PutHead, PutEntries;
    RecoverPrefixClean(l, x, 1);
    var ws := RecoverWrites(l, x);
    if crashes == [] {
      assert ws[..1] == ws;
    } else {
      var j := Min(crashes[0], |ws|);
      RecoverPrefixClean(l, x, j);
      RecoverThroughClean(l, d0, Apply(x, ws[..j]), crashes[1..]);
    }
  }

  lemma {:induction false} RecoverThroughAfter(l: Layout, d: Device, homes: seq<nat>, datas: seq<Block>, x: Device,
                                               crashes: seq<nat>)
    requires GoodHomes(l, homes, |d|) && |datas| == |homes| && After(l, d, homes, datas, x)
    ensures Recoverable(l, x) && Survivable(l, x, crashes)
    ensures After(l, d, homes, datas, RecoverThrough(l, x, crashes))
  {
    hide Word, SetWord, PutHead, PutEntries;
    RecoverThroughClean(l, x, x, crashes);
  }

  lemma {:induction false} RecoverThroughPending(l: Layout, d: Device, homes: seq<nat>, datas: seq<Block>, x: Device,
                                                 crashes: seq<nat>)
    requires GoodHomes(l, homes, |d|) && |datas| == |homes| && Pending(l, d, homes, datas, x)
    ensures Recoverable(l, x) && Survivable(l, x, crashes)
    ensures After(l, d, homes, datas, RecoverThrough(l, x, crashes))
    decreases |crashes|
  {
    hide Word, SetWord, PutHead, PutEntries;
    RecoverPrefixPending(l, d, homes, datas, x, |homes| + 1);
    var ws := RecoverWrites(l, x);
    if crashes == [] {
      assert ws[..|homes| + 1] == ws;
    } else {
      var j := Min(crashes[0], |ws|);
      RecoverPrefixPending(l, d, homes, datas, x, j);
      if j <= |homes| {
        RecoverThroughPending(l, d, homes, datas, Apply(x, ws[..j]), crashes[1..]);
      } else {
        RecoverThroughAfter(l, d, homes, datas, Apply(x, ws[..j]), crashes[1..]);
      }
    }
  }

  /** Crash atomicity. Stop a commit after any number k of its block writes, then crash any number
      of times inside recovery; the recovery that completes leaves every block outside the log as
      before the transaction when the header write (write number |homes|) had not reached the
      device, and as after it when it had. */
  lemma CrashAtomicity(l: Layout, d: Device, homes: seq<nat>, datas: seq<Block>, k: nat, crashes: seq<nat>)
    requires Clean(l, d) && GoodHomes(l, homes, |d|) && |datas| == |homes|
    requires k <= 2 * |homes| + 2
    ensures var x := Apply(d, CommitWrites(l, d[l.start], homes, datas)[..k]);
            && Recoverable(l, x) && Survivable(l, x, crashes)
            && (if k <= |homes| then Before(l, d, RecoverThrough(l, x, crashes))
                else After(l, d, homes, datas, RecoverThrough(l, x, crashes)))
  {
    hide Word, SetWord, PutHead, PutEntries;
    var x := Apply(d, CommitWrites(l, d[l.start], homes, datas)[..k]);
    CommitPrefix(l, d, homes, datas, k);
    if k <= |homes| {
      RecoverThroughClean(l, d, x, crashes);
    } else if k <= 2 * |homes| + 1 {
      RecoverThroughPending(l, d, homes, datas, x, crashes);
    } else {
      RecoverThroughAfter(l, d, homes, datas, x, crashes);
    }
  }
}
