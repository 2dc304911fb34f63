/** log.c: the in-memory log, commit and recovery, over the buffer cache. */
module Log {
  import opened Common
  import opened Disk
  import opened Crash
  import opened BufferCache

  /** View v is v0 with the first k log slots copied to their homes. */
  ghost predicate CopiedHome(l: Layout, homes: seq<nat>, v0: Device, k: nat, v: Device)
    requires k <= |homes| && GoodHomes(l, homes, |v0|)
  {
    && |v| == |v0|
    && (forall b | 0 <= b < |v| && b !in homes[..k] :: v[b] == v0[b])
    && (forall i | 0 <= i < k :: v[homes[i]] == v0[l.start + 1 + i])
  }

  lemma CopiedHomeStart(l: Layout, homes: seq<nat>, v0: Device)
    requires GoodHomes(l, homes, |v0|)
    ensures CopiedHome(l, homes, v0, 0, v0)
  {
  }

  lemma CopiedHomeStep(l: Layout, homes: seq<nat>, v0: Device, k: nat, v: Device)
    requires k < |homes| && GoodHomes(l, homes, |v0|) && CopiedHome(l, homes, v0, k, v)
    ensures v[l.start + 1 + k] == v0[l.start + 1 + k]
    ensures CopiedHome(l, homes, v0, k + 1, v[homes[k] := v[l.start + 1 + k]])
  {
    assert homes[..k + 1] == homes[..k] + [homes[k]];
    assert l.start + 1 + k !in homes[..k];
    assert forall i | 0 <= i < k :: homes[i] != homes[k];
  }

  /** Taking one reference leaves a clean buffer to recycle if the one taken is dirty, or there were two. */
  lemma SecondCanBeRead(b0: seq<Buf>, b1: seq<Buf>, l: nat)
    requires |b0| == |b1| == NBUF && l < NBUF && (forall j | 0 <= j < NBUF && j != l :: b1[j] == b0[j])
             && b1[l].dirty == b0[l].dirty
    ensures (forall i | 0 <= i < NBUF :: b0[i].refcnt == 0) &&
            ((b0[l].dirty && exists i | 0 <= i < NBUF :: !b0[i].dirty) || exists i, j | 0 <= i < j < NBUF ::
               !b0[i].dirty && !b0[j].dirty) ==>
              exists i | 0 <= i < NBUF :: b1[i].refcnt == 0 && !b1[i].dirty
  {
  }

  lemma HomesWith(l: Layout, homes: seq<nat>, b: nat, size: nat)
    requires GoodHomes(l, homes, size) && |homes| < l.cap && b < size && !l.InLog(b)
    ensures b !in homes ==> GoodHomes(l, homes + [b], size)
  {
  }

  /** Caching one block brings no other block into the cache. */
  lemma StaysOut(b0: seq<Buf>, s0: map<(nat, nat), nat>, b1: seq<Buf>, s1: map<(nat, nat), nat>, l: nat, src: nat,
                 dst: nat)
    requires Slots(b0, s0) && Slots(b1, s1) && l < NBUF && b1[l].Key() == (ROOTDEV, src) && src != dst
    requires forall j | 0 <= j < NBUF && j != l :: b1[j] == b0[j]
    ensures (ROOTDEV, dst) in s1 ==> (ROOTDEV, dst) in s0
  {
  }

  lemma HeldIsSlot(bufs: seq<Buf>, slot: map<(nat, nat), nat>, l: nat, src: nat)
    requires Slots(bufs, slot) && l < NBUF && bufs[l].Key() == (ROOTDEV, src)
    ensures (ROOTDEV, src) in slot && slot[(ROOTDEV, src)] == l
  {
  }

  class Log {
    const cache: Bcache
    const layout: Layout             // header block and log.size - 1 data slots
    var n: nat                       // lh.n
    const block: array<nat>          // lh.block

    ghost predicate Shape()
      reads this, block, cache
    {
      && cache.Valid()
      && n <= block.Length == LOGSIZE
      && GoodHomes(layout, block[..n], |cache.disk|)
    }

    /** Between operations: exactly the logged blocks are pinned, and the header on disk is empty. */
    ghost predicate Valid()
      reads this, block, cache
    {
      && Shape()
      && Clean(layout, cache.disk)
      && (forall b: nat :: cache.Pinned(b) <==> b in block[..n])
    }

    /** Nobody holds a block of the log or a logged block; other buffers may be held by other processes. */
    ghost predicate Undisturbed()
      requires cache.Valid() && n <= block.Length
      reads this, block, cache
    {
      forall b: nat | cache.InUse(b) :: !layout.InLog(b) && b !in block[..n]
    }

    /** The logged contents, as the cache holds them. */
    ghost function Datas(): (r: seq<Block>)
      requires Shape()
      reads this, block, cache
      ensures |r| == n
    {
      seq(n, i requires 0 <= i < n && Shape() reads this, block, cache => cache.View()[block[i]])
    }

    /** The first k writes of ws, and no others, have reached the device since it was d0. */
    ghost predicate Issued(d0: Device, t0: seq<Write>, ws: seq<Write>, k: nat)
      reads cache
    {
      && k <= |ws| && InRange(ws, |d0|)
      && cache.disk == Apply(d0, ws[..k])
      && cache.trace == t0 + ws[..k]
    }

    /** Both blocks are on the device and two buffers can be had: one of the blocks is pinned, hence
        cached, and some buffer is clean, or two are. */
    ghost predicate CanCopy(src: nat, dst: nat)
      requires cache.Valid()
      reads this, cache
    {
      && src < |cache.disk| && dst < |cache.disk|
      && (|| ((cache.Pinned(src) || cache.Pinned(dst)) && exists i | 0 <= i < NBUF :: !cache.bufs[i].dirty)
          || exists i, j | 0 <= i < j < NBUF :: !cache.bufs[i].dirty && !cache.bufs[j].dirty)
    }

    /** Block b is not cached and cannot be. */
    ghost predicate NoRoom(b: nat)
      requires cache.Valid()
      reads this, cache
    {
      !cache.Cached(b) && forall i | 0 <= i < NBUF :: cache.bufs[i].dirty
    }

    /** memmove of one block between two buffers followed by bwrite, as in write_log and install_trans. */
    method CopyBlock(src: nat, dst: nat, pid: nat) returns (ok: bool)
      requires cache.Valid() && !cache.InUse(src) && !cache.InUse(dst) && src != dst
      modifies cache
      ensures cache.Valid()
      ensures !ok ==> cache.disk == old(cache.disk) && cache.trace == old(cache.trace)
      ensures ok ==> (forall b: nat :: cache.InUse(b) == old(cache.InUse(b))) && src < |old(cache.disk)|
                     && dst < |old(cache.disk)|
      ensures ok ==> cache.View() == old(cache.View()[dst := cache.View()[src]])
      ensures ok ==> cache.disk == old(cache.disk[dst := cache.View()[src]])
      ensures ok ==> cache.trace == old(cache.trace) + [Write(dst, old(cache.View()[src]))]
      ensures ok ==> forall b: nat :: cache.Pinned(b) == (old(cache.Pinned(b)) && b != dst)
      ensures old(cache.Idle() && CanCopy(src, dst)) ==> ok && cache.Idle()
      ensures old(NoRoom(dst)) ==> !ok
    {
      hide Linked, Permutation, Bcache.CountsExact, Bcache.ViewAt, Bcache.View, Bcache.Coherent, CanCopy, NoRoom;
      var l, d := ReadPair(src, dst, pid);
      if !l.Got? || !d.Got? {
        return false;
      }
      WriteThrough(d.buf, dst, cache.bufs[l.buf].data, pid);
      ReleasePair(l.buf, src, d.buf, dst, pid);
      ok := true;
    }

    /** Buffers l and d are referenced once, no other one is. */
    ghost predicate OnlyPair(l: nat, d: nat)
      reads this, cache
    {
      forall i | 0 <= i < |cache.bufs| :: cache.bufs[i].refcnt == if i == l || i == d then 1 else 0
    }

    /** Two breads. */
    method ReadPair(src: nat, dst: nat, pid: nat) returns (l: Read, d: Read)
      requires cache.Valid() && !cache.InUse(src) && !cache.InUse(dst) && src != dst
      modifies cache
      ensures cache.Valid() && cache.disk == old(cache.disk) && cache.trace == old(cache.trace)
              && cache.View() == old(cache.View())
      ensures forall b: nat :: cache.Pinned(b) == old(cache.Pinned(b))
      ensures l.Got? && d.Got? ==>
                && l.buf != d.buf && src < |cache.disk|
                && cache.Holds(l.buf, src, pid) && cache.Holds(d.buf, dst, pid)
                && cache.bufs[l.buf].data == cache.View()[src]
                && (cache.bufs[l.buf].dirty || cache.View()[src] == cache.disk[src])
                && forall b: nat :: cache.InUse(b) <==> old(cache.InUse(b)) || b == src || b == dst
      ensures old(cache.Idle() && CanCopy(src, dst)) ==> l.Got? && d.Got?
      ensures old(NoRoom(dst)) ==> !l.Got? || !d.Got?
      ensures old(cache.Idle()) && l.Got? && d.Got? ==> OnlyPair(l.buf, d.buf)
    {
      hide Linked, Permutation, Bcache.CountsExact, Bcache.OneSlotPerBlock, Bcache.ViewAt, Bcache.View, Bcache.Coherent;
      hide CanCopy, NoRoom, OnlyPair, Bcache.Idle, Bcache.Exhausted, Bcache.Cached, Bcache.Pinned, Bcache.InUse,
        Bcache.Holds;
      d := Panics;
      l := ReadFirst(src, dst, pid);
      if l.Got? {
        d := ReadSecond(l.buf, src, dst, pid);
      }
    }

    method ReadFirst(src: nat, dst: nat, pid: nat) returns (l: Read)
      requires cache.Valid() && !cache.InUse(src) && !cache.InUse(dst) && src != dst
      modifies cache
      ensures cache.Valid() && cache.disk == old(cache.disk) && cache.trace == old(cache.trace)
              && cache.View() == old(cache.View())
      ensures forall b: nat :: cache.Pinned(b) == old(cache.Pinned(b))
      ensures l.Got? ==>
                && src < |cache.disk| && l.buf < |cache.bufs| && cache.Holds(l.buf, src, pid)
                && cache.bufs[l.buf].data == cache.View()[src]
                && (cache.bufs[l.buf].dirty || cache.View()[src] == cache.disk[src])
                && forall b: nat :: cache.InUse(b) <==> old(cache.InUse(b)) || b == src
      ensures old(cache.Idle() && CanCopy(src, dst)) ==>
                l.Got? && dst < |cache.disk| && (cache.Cached(dst) || !cache.Exhausted())
      ensures old(NoRoom(dst)) && l.Got? ==> !cache.Cached(dst) && cache.Exhausted()
      ensures old(cache.Idle()) && l.Got? ==> OnlyPair(l.buf, l.buf)
    {
      hide Linked, Permutation, Bcache.CountsExact, Bcache.ViewAt, Bcache.View, Bcache.Coherent, Slots;
      if src < |cache.disk| && !cache.Pinned(src) {
        cache.AtRest(src);
      }
      ghost var before, slots := cache.bufs, cache.slot;
      l := cache.Bread(src, pid);
      if l.Got? {
        SecondCanBeRead(before, cache.bufs, l.buf);
        StaysOut(before, slots, cache.bufs, cache.slot, l.buf, src, dst);
        HeldIsSlot(cache.bufs, cache.slot, l.buf, src);
      }
    }

    method ReadSecond(l: nat, src: nat, dst: nat, pid: nat) returns (d: Read)
      requires cache.Valid() && src != dst && l < |cache.bufs| && cache.Holds(l, src, pid) && cache.InUse(src)
               && !cache.InUse(dst)
      modifies cache
      ensures cache.Valid() && cache.disk == old(cache.disk) && cache.trace == old(cache.trace)
              && cache.View() == old(cache.View())
      ensures forall b: nat :: cache.Pinned(b) == old(cache.Pinned(b))
      ensures !d.Got? <==> dst >= |cache.disk| || (!old(cache.Cached(dst)) && old(cache.Exhausted()))
      ensures d.Got? ==>
                && l != d.buf && l < |cache.bufs| && cache.bufs[l] == old(cache.bufs[l])
                && cache.Holds(l, src, pid) && cache.Holds(d.buf, dst, pid)
                && forall b: nat :: cache.InUse(b) <==> old(cache.InUse(b)) || b == dst
      ensures old(OnlyPair(l, l)) && d.Got? ==> OnlyPair(l, d.buf)
    {
      hide Linked, Permutation, Bcache.CountsExact, Bcache.ViewAt, Bcache.View, Bcache.Coherent;
      d := cache.Bread(dst, pid);
    }

    method ReleasePair(l: nat, src: nat, d: nat, dst: nat, pid: nat)
      requires cache.Valid() && src != dst && cache.Holds(l, src, pid) && cache.Holds(d, dst, pid)
      requires src < |cache.disk| && dst < |cache.disk|
      requires cache.InUse(src) && cache.InUse(dst)
      requires cache.bufs[l].dirty || cache.bufs[l].data == cache.disk[src]
      requires cache.bufs[d].dirty || cache.bufs[d].data == cache.disk[dst]
      modifies cache
      ensures cache.Valid() && forall b: nat :: cache.InUse(b) == (old(cache.InUse(b)) && b != src && b != dst)
      ensures cache.disk == old(cache.disk) && cache.trace == old(cache.trace) && cache.View() == old(cache.View())
      ensures forall b: nat :: cache.Pinned(b) == old(cache.Pinned(b))
      ensures l != d && old(OnlyPair(l, d)) ==> cache.Idle()
    {
      hide Linked, Permutation, Bcache.CountsExact, Bcache.ViewAt, Bcache.View, Bcache.Coherent;
      cache.Brelse(l, src, pid);
      cache.Brelse(d, dst, pid);
    }

    /** The holder of a buffer overwrites it and writes it to the device. */
    method WriteThrough(i: nat, b: nat, data: Block, pid: nat)
      requires cache.Valid() && cache.Holds(i, b, pid)
      modifies cache
      ensures cache.Valid() && cache.Holds(i, b, pid) && b < |old(cache.disk)|
      ensures cache.View() == old(cache.View())[b := data]
      ensures cache.disk == old(cache.disk)[b := data]
      ensures cache.trace == old(cache.trace) + [Write(b, data)]
      ensures |cache.bufs| == NBUF && cache.bufs[i].data == data && cache.bufs[i].refcnt == old(cache.bufs[i].refcnt)
      ensures forall j | 0 <= j < NBUF && j != i :: cache.bufs[j] == old(cache.bufs[j])
      ensures forall c: nat :: cache.Pinned(c) == (old(cache.Pinned(c)) && c != b)
      ensures forall c: nat :: cache.InUse(c) == old(cache.InUse(c))
    {
      hide Linked, Permutation, Bcache.CountsExact;
      cache.Store(i, b, pid, data);
      cache.Bwrite(i, b, pid);
      assert cache.bufs[i].data == cache.ViewAt(b);
    }

    /** initlog, before recovery. */
    constructor (cache: Bcache, layout: Layout)
      requires cache.Valid() && layout.Fits(|cache.disk|) && |cache.disk| <= LIMIT32
      ensures this.cache == cache && this.layout == layout && n == 0 && fresh(block)
      ensures Shape()
    {
      this.cache := cache;
      this.layout := layout;
      n := 0;
      block := new nat[LOGSIZE];
    }

    lemma IssuedStart(ws: seq<Write>)
      requires InRange(ws, |cache.disk|)
      ensures Issued(cache.disk, cache.trace, ws, 0)
    {
      assert ws[..0] == [];
    }

    /** With nothing pinned, every read of a block nobody holds sees the device. */
    lemma AllAtRest()
      requires cache.Valid() && forall b: nat :: !cache.Pinned(b)
      ensures forall b | 0 <= b < |cache.disk| && !cache.InUse(b) :: cache.View()[b] == cache.disk[b]
    {
      forall b | 0 <= b < |cache.disk| && !cache.InUse(b) ensures cache.View()[b] == cache.disk[b] { cache.AtRest(b); }
    }

    /** One more write of ws has been issued. */
    lemma IssuedNext(d0: Device, t0: seq<Write>, ws: seq<Write>, k: nat, d: Device, t: seq<Write>)
      requires k < |ws| && InRange(ws, |d0|)
      requires d == Apply(d0, ws[..k]) && t == t0 + ws[..k]
      ensures d[ws[k].bno := ws[k].data] == Apply(d0, ws[..k + 1])
      ensures t + [ws[k]] == t0 + ws[..k + 1]
    {
      hide Apply;
      ApplyNext(d0, ws, k);
      assert ws[..k + 1] == ws[..k] + [ws[k]];
    }

    /** While exactly the logged blocks are pinned, write_log finds its buffers iff there are more
        buffers than logged blocks. */
    lemma LogCanCopy(tail: nat)
      requires Shape() && tail < n && forall b: nat :: cache.Pinned(b) <==> b in block[..n]
      ensures n < NBUF ==> CanCopy(block[tail], layout.start + 1 + tail)
      ensures n == NBUF ==> NoRoom(layout.start + 1 + tail)
    {
      hide Linked, Permutation, Bcache.CountsExact, Bcache.Coherent, Bcache.Pinned, Bcache.Cached;
      assert block[tail] == block[..n][tail];
      if n < NBUF { cache.SomeClean(block[..n]); } else { cache.AllDirty(block[..n]); }
    }

    /** The same for install_trans, when the homes are still pinned or nothing is. */
    lemma InstallCanCopy(tail: nat)
      requires Shape() && tail < n
      requires (n < NBUF && cache.Pinned(block[tail]) && forall b: nat :: cache.Pinned(b) ==> b in block[..n])
               || forall b: nat :: !cache.Pinned(b)
      ensures CanCopy(layout.start + 1 + tail, block[tail])
    {
      hide Linked, Permutation, Bcache.CountsExact, Bcache.Coherent, Bcache.Pinned, Bcache.Cached;
      assert block[tail] == block[..n][tail];
      if cache.Pinned(block[tail]) { cache.SomeClean(block[..n]); } else { cache.SomeClean([]); }
    }

    /** With fewer pinned blocks than buffers any block can be read. */
    lemma CanRead()
      requires Shape() && cache.Idle() && n < NBUF && forall b: nat :: cache.Pinned(b) ==> b in block[..n]
      ensures !cache.Exhausted()
    {
      cache.SomeClean(block[..n]);
    }

    lemma CanReadAtBoot()
      requires cache.Valid() && cache.Idle() && forall b: nat :: !cache.Pinned(b)
      ensures !cache.Exhausted()
    {
      cache.SomeClean([]);
    }

    /** write_log: the pinned cached copies go to the log slots. */
    method WriteLog(pid: nat, ghost d0: Device, ghost t0: seq<Write>, ghost ws: seq<Write>)
      returns (ok: bool, ghost k: nat)
      requires Shape() && Undisturbed() && n <= |ws|
      requires Issued(d0, t0, ws, 0)
      requires forall i | 0 <= i < n :: ws[i] == Write(layout.start + 1 + i, cache.View()[block[i]])
      requires forall b: nat :: cache.Pinned(b) <==> b in block[..n]
      modifies cache
      ensures k <= n && Issued(d0, t0, ws, k)
      ensures ok ==> k == n && Shape() && (forall b: nat :: cache.InUse(b) == old(cache.InUse(b)))
      ensures ok ==> forall b: nat :: cache.Pinned(b) == old(cache.Pinned(b))
      ensures ok ==> forall b | 0 <= b < |d0| && !(layout.start < b <= layout.start + n) ::
                  cache.View()[b] == old(cache.View()[b])
      ensures ok ==> forall i | 0 <= i < n :: cache.View()[layout.start + 1 + i] == old(cache.View()[block[i]])
      ensures old(cache.Idle()) && n < NBUF ==> ok && cache.Idle()
      ensures n == NBUF ==> !ok
    {
      hide Linked, Permutation, Bcache.OneSlotPerBlock, Bcache.CountsExact, Bcache.Coherent, Bcache.Idle,
        Bcache.Cached, CanCopy, NoRoom;
      hide Bcache.View, Bcache.ViewAt, Bcache.Pinned, Bcache.InUse, Bcache.Quiet, Apply;
      var tail := 0;
      while tail < n
        invariant 0 <= tail <= n && Shape() && Undisturbed() && (forall b: nat :: cache.InUse(b) == old(cache.InUse(b)))
        invariant Issued(d0, t0, ws, tail)
        invariant forall b: nat :: cache.Pinned(b) == old(cache.Pinned(b))
        invariant forall b | 0 <= b < |d0| && !(layout.start < b <= layout.start + n) ::
                    cache.View()[b] == old(cache.View()[b])
        invariant forall i | 0 <= i < tail :: cache.View()[layout.start + 1 + i] == old(cache.View()[block[i]])
        invariant old(cache.Idle()) && n < NBUF ==> cache.Idle()
        invariant n == NBUF ==> tail == 0
      {
        LogCanCopy(tail);
        IssuedNext(d0, t0, ws, tail, cache.disk, cache.trace);
        var copied := CopyBlock(block[tail], layout.start + 1 + tail, pid);
        if !copied {
          return false, tail;
        }
        tail := tail + 1;
      }
      return true, tail;
    }

    /** write_head: the in-memory header goes to the header block; returns without writing on panic. */
    method WriteHead(pid: nat) returns (ok: bool)
      requires Shape() && !cache.InUse(layout.start)
      requires !cache.Pinned(layout.start)
      modifies cache
      ensures cache.Valid()
      ensures !ok ==> cache.disk == old(cache.disk) && cache.trace == old(cache.trace)
      ensures ok ==> (forall b: nat :: cache.InUse(b) == old(cache.InUse(b)))
      ensures ok ==> var h := PutHead(old(cache.View()[layout.start]), block[..n]);
                     && cache.View() == old(cache.View())[layout.start := h]
                     && cache.disk == old(cache.disk)[layout.start := h]
                     && cache.trace == old(cache.trace) + [Write(layout.start, h)]
      ensures ok ==> forall b: nat :: cache.Pinned(b) == old(cache.Pinned(b))
      ensures old(cache.Idle() && !cache.Exhausted()) ==> ok && cache.Idle()
    {
      hide Linked, Permutation, Bcache.OneSlotPerBlock, Bcache.CountsExact, Bcache.Coherent, Bcache.View,
        Bcache.ViewAt, Bcache.Exhausted, PutHead;
      var r := cache.Bread(layout.start, pid);
      if !r.Got? { return false; }
      var h := FillHead(cache.bufs[r.buf].data);
      WriteThrough(r.buf, layout.start, h, pid);
      cache.Brelse(r.buf, layout.start, pid);
      ok := true;
    }

    /** The copy loop of write_head. */
    method FillHead(old_head: Block) returns (h: Block)
      requires n <= block.Length == LOGSIZE
      requires forall i | 0 <= i < n :: block[i] < LIMIT32
      ensures h == PutHead(old_head, block[..n])
    {
      hide Word, SetWord;
      h := SetWord(old_head, 0, n);
      for i := 0 to n
        invariant h == PutEntries(SetWord(old_head, 0, n), block[..n], i)
      {
        h := SetWord(h, 1 + i, block[i]);
      }
    }

    /** The logged blocks, fewer than there are buffers, are pinned and nothing else is; or nothing is. */
    ghost predicate HomesReady()
      requires Shape()
      reads this, block, cache
    {
      (n < NBUF && forall b: nat :: cache.Pinned(b) <==> b in block[..n]) || forall b: nat :: !cache.Pinned(b)
    }

    /** install_trans: log slots go to their home blocks, unpinning them. */
    method InstallTrans(pid: nat, ghost d0: Device, ghost t0: seq<Write>, ghost ws: seq<Write>, ghost at: nat)
      returns (ok: bool, ghost k: nat)
      requires Shape() && Undisturbed() && at + n <= |ws|
      requires Issued(d0, t0, ws, at)
      requires forall i | 0 <= i < n :: ws[at + i] == Write(block[i], cache.View()[layout.start + 1 + i])
      modifies cache
      ensures at <= k <= at + n && Issued(d0, t0, ws, k)
      ensures ok ==> k == at + n && Shape() && (forall b: nat :: cache.InUse(b) == old(cache.InUse(b)))
      ensures ok ==> forall b: nat :: cache.Pinned(b) == (old(cache.Pinned(b)) && b !in block[..n])
      ensures ok ==> CopiedHome(layout, block[..n], old(cache.View()), n, cache.View())
      ensures old(cache.Idle() && HomesReady()) ==> ok && cache.Idle()
    {
      hide Linked, Permutation, Bcache.OneSlotPerBlock, Bcache.CountsExact, Bcache.Coherent, Bcache.Idle, CanCopy;
      hide Bcache.View, Bcache.ViewAt, Bcache.Pinned, Bcache.InUse, Bcache.Quiet, Apply, CopiedHome;
      k := at;
      ghost var homes, v0 := block[..n], cache.View();
      CopiedHomeStart(layout, homes, v0);
      var tail := 0;
      while tail < n
        invariant 0 <= tail <= n && Shape() && Undisturbed()
                  && (forall b: nat :: cache.InUse(b) == old(cache.InUse(b))) && |cache.disk| == |v0|
        invariant k == at + tail && Issued(d0, t0, ws, k)
        invariant forall b: nat :: cache.Pinned(b) == (old(cache.Pinned(b)) && b !in homes[..tail])
        invariant CopiedHome(layout, homes, v0, tail, cache.View())
        invariant old(cache.Idle() && HomesReady()) ==> cache.Idle()
      {
        assert homes[tail] !in homes[..tail] && homes[tail] in homes;
        if old(HomesReady()) { InstallCanCopy(tail); }
        CopiedHomeStep(layout, homes, v0, tail, cache.View());
        assert ws[k] == Write(homes[tail], v0[layout.start + 1 + tail]);
        IssuedNext(d0, t0, ws, k, cache.disk, cache.trace);
        var copied := CopyBlock(layout.start + 1 + tail, block[tail], pid);
        if !copied {
          return false, k;
        }
        assert homes[..tail + 1] == homes[..tail] + [homes[tail]];
        tail, k := tail + 1, k + 1;
      }
      return true, k;
    }

    /** log_write by the holder of the buffer caching block b; false is a panic. */
    method LogWrite(i: nat, b: nat, pid: nat, outstanding: int) returns (ok: bool)
      requires Valid() && cache.Holds(i, b, pid) && !layout.InLog(b)
      modifies this`n, block, cache
      ensures Valid() && cache.Holds(i, b, pid) && cache.View() == old(cache.View())
      ensures cache.disk == old(cache.disk) && cache.trace == old(cache.trace)
      ensures ok <==> old(n) < layout.cap && outstanding >= 1
      ensures !ok ==> n == old(n) && block[..n] == old(block[..n])
      ensures ok ==> block[..n] == if b in old(block[..n]) then old(block[..n]) else old(block[..n]) + [b]
      ensures forall c: nat :: cache.InUse(c) == old(cache.InUse(c))
    {
      hide Linked, Permutation, Bcache.CountsExact, Word, Bcache.View, Bcache.ViewAt, Bcache.InUse, Bcache.Pinned,
        GoodHomes;
      if n >= LOGSIZE || n >= layout.cap || outstanding < 1 {
        return false;
      }
      assert b < |cache.disk|;
      ghost var homes := block[..n];
      var k := 0;
      while k < n
        invariant 0 <= k <= n
        invariant forall j | 0 <= j < k :: block[j] != b
      {
        if block[k] == b { break; }
        k := k + 1;
      }
      block[k] := b;
      if k == n {
        n := n + 1;
      }
      assert block[..n] == if k < |homes| then homes else homes + [b];
      assert b in homes <==> k < |homes|;
      HomesWith(layout, homes, b, |cache.disk|);
      cache.Pin(i, b, pid);
      ok := true;
    }

    /** read_head. */
    method ReadHead(pid: nat) returns (ok: bool)
      requires cache.Valid() && !cache.InUse(layout.start) && block.Length == LOGSIZE
      requires Recoverable(layout, cache.disk)
      requires !cache.Pinned(layout.start)
      modifies this`n, block, cache
      ensures cache.Valid() && cache.disk == old(cache.disk) && cache.trace == old(cache.trace)
      ensures ok ==> (forall b: nat :: cache.InUse(b) == old(cache.InUse(b))) && cache.View() == old(cache.View())
      ensures ok ==> n <= LOGSIZE && block[..n] == Announced(cache.disk[layout.start])
      ensures forall b: nat :: cache.Pinned(b) == old(cache.Pinned(b))
      ensures old(cache.Idle() && !cache.Exhausted()) ==> ok && cache.Idle()
    {
      hide Linked, Permutation, Bcache.CountsExact, Bcache.Coherent, Bcache.View, Bcache.ViewAt, Word;
      cache.AtRest(layout.start);
      var r := cache.Bread(layout.start, pid);
      if !r.Got? { return false; }
      var h := cache.bufs[r.buf].data;
      CopyHead(h);
      cache.Brelse(r.buf, layout.start, pid);
      ok := true;
    }

    method CopyHead(h: Block)
      requires Word(h, 0) <= LOGSIZE == block.Length
      modifies this`n, block
      ensures n == Word(h, 0) && block[..n] == Announced(h)
    {
      hide Word;
      n := Word(h, 0);
      for i := 0 to n
        invariant n == Word(h, 0)
        invariant forall j | 0 <= j < i :: block[j] == Word(h, 1 + j)
      {
        block[i] := Word(h, 1 + i);
      }
    }

    /** WriteHead as write number k of ws. */
    method WriteHeadAs(pid: nat, ghost d0: Device, ghost t0: seq<Write>, ghost ws: seq<Write>, ghost k: nat)
      returns (ok: bool)
      requires Shape() && !cache.InUse(layout.start) && !cache.Pinned(layout.start)
      requires k < |ws| && Issued(d0, t0, ws, k)
      requires ws[k] == Write(layout.start, PutHead(cache.View()[layout.start], block[..n]))
      modifies cache
      ensures cache.Valid() && Issued(d0, t0, ws, if ok then k + 1 else k)
      ensures ok ==> (forall b: nat :: cache.InUse(b) == old(cache.InUse(b)))
                     && cache.View() == old(cache.View())[layout.start := ws[k].data]
      ensures ok ==> forall b: nat :: cache.Pinned(b) == old(cache.Pinned(b))
      ensures old(cache.Idle() && !cache.Exhausted()) ==> ok && cache.Idle()
    {
      hide Linked, Permutation, Bcache.OneSlotPerBlock, Bcache.CountsExact, Bcache.Coherent, Bcache.Idle,
        Bcache.Exhausted;
      hide Bcache.View, Bcache.ViewAt, Bcache.Pinned, Bcache.InUse, Bcache.Quiet, Apply, PutHead;
      IssuedNext(d0, t0, ws, k, cache.disk, cache.trace);
      ok := WriteHead(pid);
    }

    /** commit, for a process that does not have to wait for any buffer; others may hold other blocks. Whatever
        happens, the device has received a prefix of CommitWrites and nothing else; on return it has received all of it,
        no block is pinned, and no block outside the log reads differently. */
    method Commit(pid: nat) returns (ok: bool, ghost k: nat)
      requires Valid() && Undisturbed()
      modifies this`n, cache
      ensures old(n) == 0 ==> ok && cache.disk == old(cache.disk) && cache.trace == old(cache.trace)
      ensures old(n) > 0 ==>
                var ws := CommitWrites(layout, old(cache.disk[layout.start]), old(block[..n]), old(Datas()));
                Issued(old(cache.disk), old(cache.trace), ws, k) && (ok ==> k == |ws|)
      ensures ok ==> Valid() && n == 0 && (forall b: nat :: cache.InUse(b) == old(cache.InUse(b)))
      ensures ok ==> forall b | 0 <= b < |cache.disk| && !layout.InLog(b) ::
                  cache.View()[b] == old(cache.View()[b]) && (!cache.InUse(b) ==> cache.View()[b] == cache.disk[b])
      ensures old(cache.Idle()) ==> (ok <==> old(n) < NBUF) && (ok ==> cache.Idle())
    {
      k := 0;
      if n == 0 {
        AllAtRest();
        return true, 0;
      }
      ok, k := CommitBody(pid);
    }

    method CommitBody(pid: nat) returns (ok: bool, ghost k: nat)
      requires Valid() && Undisturbed() && n > 0
      modifies this`n, cache
      ensures
        var ws := CommitWrites(layout, old(cache.disk[layout.start]), old(block[..n]), old(Datas()));
        Issued(old(cache.disk), old(cache.trace), ws, k) && (ok ==> k == |ws|)
      ensures ok ==> Valid() && n == 0 && (forall b: nat :: cache.InUse(b) == old(cache.InUse(b)))
      ensures ok ==> forall b | 0 <= b < |cache.disk| && !layout.InLog(b) ::
                  cache.View()[b] == old(cache.View()[b]) && (!cache.InUse(b) ==> cache.View()[b] == cache.disk[b])
      ensures old(cache.Idle()) ==> (ok <==> old(n) < NBUF) && (ok ==> cache.Idle())
    {
      hide Linked, Permutation, Bcache.OneSlotPerBlock, Bcache.CountsExact, Bcache.Coherent, Bcache.Idle;
      hide Bcache.View, Bcache.ViewAt, Bcache.Pinned, Bcache.InUse, Bcache.Quiet, Apply, PutHead, Word, CommitWrites,
        Issued;
      ghost var d0, t0, v0 := cache.disk, cache.trace, cache.View();
      ghost var homes, datas := block[..n], Datas();
      ghost var ws := CommitWrites(layout, d0[layout.start], homes, datas);
      ok, k := LogAndHead(pid, ws);
      if !ok { return; }
      ok, k := InstallAndErase(pid, d0, t0, ws, d0[layout.start], datas);
      if !ok { return; }
      CommitKeepsView(homes, datas, v0, cache.View());
    }

    /** Copying the logged contents home changes no block outside the log. */
    lemma CommitKeepsView(homes: seq<nat>, datas: seq<Block>, v0: Device, v: Device)
      requires GoodHomes(layout, homes, |v0|) && |v| == |v0| && |datas| == |homes|
      requires forall i | 0 <= i < |homes| :: datas[i] == v0[homes[i]]
      requires After(layout, v0, homes, datas, v)
      ensures forall b | 0 <= b < |v| && !layout.InLog(b) :: v[b] == v0[b]
    {
      hide Word;
    }

    /** write_log and the first write_head. */
    method LogAndHead(pid: nat, ghost ws: seq<Write>) returns (ok: bool, ghost k: nat)
      requires Valid() && Undisturbed()
      requires ws == CommitWrites(layout, cache.disk[layout.start], block[..n], Datas())
      modifies cache
      ensures Issued(old(cache.disk), old(cache.trace), ws, k)
      ensures ok ==> k == n + 1 && Shape() && (forall b: nat :: cache.InUse(b) == old(cache.InUse(b)))
      ensures ok ==> forall b: nat :: cache.Pinned(b) <==> b in block[..n]
      ensures ok ==> Pending(layout, old(cache.View()), block[..n], old(Datas()), cache.View())
      ensures ok ==> cache.View()[layout.start] == PutHead(old(cache.disk[layout.start]), block[..n])
      ensures old(cache.Idle()) && n < NBUF ==> ok && cache.Idle()
      ensures n == NBUF ==> !ok
    {
      hide Linked, Permutation, Bcache.OneSlotPerBlock, Bcache.CountsExact, Bcache.Coherent, Bcache.Idle,
        Bcache.Exhausted;
      hide Bcache.View, Bcache.ViewAt, Bcache.Pinned, Bcache.InUse, Apply, PutHead, Word, Pending;
      cache.AtRest(layout.start);
      IssuedStart(ws);
      LogWrites(ws);
      ghost var homes, datas, v0, h := block[..n], Datas(), cache.View(), cache.disk[layout.start];
      ok, k := WriteLog(pid, cache.disk, cache.trace, ws);
      if !ok { return; }
      if old(cache.Idle()) { CanRead(); }
      LoggedIsPending(homes, datas, v0, cache.View(), h);
      ok := WriteHeadAs(pid, old(cache.disk), old(cache.trace), ws, n);
      if ok { k := n + 1; }
    }

    lemma LogWrites(ws: seq<Write>)
      requires Shape() && ws == CommitWrites(layout, cache.disk[layout.start], block[..n], Datas())
      ensures InRange(ws, |cache.disk|) && n < |ws|
      ensures forall i | 0 <= i < n :: ws[i] == Write(layout.start + 1 + i, cache.View()[block[i]])
      ensures ws[n] == Write(layout.start, PutHead(cache.disk[layout.start], block[..n]))
    {
      hide Linked, Permutation, Bcache.OneSlotPerBlock, Bcache.CountsExact, Bcache.Coherent, Bcache.View, PutHead, Word;
    }

    /** The logged contents in their slots, and a header that announces them. */
    lemma LoggedIsPending(homes: seq<nat>, datas: seq<Block>, v0: Device, v: Device, h: Block)
      requires GoodHomes(layout, homes, |v0|) && |v| == |v0| && |datas| == |homes|
      requires forall b | 0 <= b < |v0| && !(layout.start < b <= layout.start + |homes|) :: v[b] == v0[b]
      requires forall i | 0 <= i < |homes| :: v[layout.start + 1 + i] == datas[i]
      ensures Pending(layout, v0, homes, datas, v[layout.start := PutHead(h, homes)])
    {
      hide PutHead, Word;
    }

    /** install_trans and the second write_head. */
    method InstallAndErase(pid: nat, ghost d0: Device, ghost t0: seq<Write>, ghost ws: seq<Write>, ghost h: Block,
                           ghost datas: seq<Block>)
      returns (ok: bool, ghost k: nat)
      requires Shape() && Undisturbed() && |datas| == n && |d0| == |cache.disk|
      requires ws == CommitWrites(layout, h, block[..n], datas)
      requires Issued(d0, t0, ws, n + 1)
      requires cache.View()[layout.start] == PutHead(h, block[..n])
      requires forall i | 0 <= i < n :: cache.View()[layout.start + 1 + i] == datas[i]
      requires forall b: nat :: cache.Pinned(b) <==> b in block[..n]
      modifies this`n, cache
      ensures Issued(d0, t0, ws, k) && (ok ==> k == |ws|)
      ensures ok ==> Valid() && n == 0 && (forall b: nat :: cache.InUse(b) == old(cache.InUse(b)))
                     && |cache.disk| == |old(cache.disk)|
      ensures ok ==> forall b | 0 <= b < |cache.disk| && !cache.InUse(b) :: cache.View()[b] == cache.disk[b]
      ensures ok ==> After(layout, old(cache.View()), old(block[..n]), datas, cache.View())
      ensures old(cache.Idle()) && old(n) < NBUF ==> ok && cache.Idle()
    {
      hide Linked, Permutation, Bcache.OneSlotPerBlock, Bcache.CountsExact, Bcache.Coherent, Bcache.Idle,
        Bcache.Exhausted;
      hide Bcache.View, Bcache.ViewAt, Bcache.Pinned, Bcache.InUse, Apply, PutHead, Word, CopiedHome, After,
        CommitWrites;
      ghost var homes, v0 := block[..n], cache.View();
      InstallWrites(ws, h, homes, datas);
      ok, k := InstallTrans(pid, d0, t0, ws, n + 1);
      if !ok { return; }
      CopiedThenErased(homes, datas, v0, cache.View(), PutHead(h, homes));
      n := 0;
      if cache.Idle() { CanRead(); }
      ok := WriteHeadAs(pid, d0, t0, ws, k);
      if !ok { return; }
      k := k + 1;
      AllAtRest();
    }

    lemma InstallWrites(ws: seq<Write>, h: Block, homes: seq<nat>, datas: seq<Block>)
      requires |homes| == |datas| <= LOGSIZE && forall i | 0 <= i < |homes| :: homes[i] < LIMIT32
      requires ws == CommitWrites(layout, h, homes, datas)
      ensures forall i | 0 <= i < |homes| :: ws[|homes| + 1 + i] == Write(homes[i], datas[i])
      ensures ws[2 * |homes| + 1] == Write(layout.start, PutHead(PutHead(h, homes), []))
    {
      hide PutHead, Word;
    }

    lemma CopiedThenErased(homes: seq<nat>, datas: seq<Block>, v0: Device, v: Device, h: Block)
      requires GoodHomes(layout, homes, |v0|) && |datas| == |homes|
      requires CopiedHome(layout, homes, v0, |homes|, v)
      requires forall i | 0 <= i < |homes| :: v0[layout.start + 1 + i] == datas[i]
      ensures v[layout.start] == v0[layout.start]
      ensures After(layout, v0, homes, datas, v[layout.start := PutHead(h, [])])
    {
      hide PutHead, Word;
      assert homes[..|homes|] == homes;
    }

    /** recover_from_log, on a cache where nothing is pinned or held (as at boot). Whatever happens,
        the device has received a prefix of RecoverWrites and nothing else. */
    method Recover(pid: nat) returns (ok: bool, ghost k: nat)
      requires cache.Valid() && cache.Quiet() && block.Length == LOGSIZE
      requires Recoverable(layout, cache.disk)
      requires forall b: nat :: !cache.Pinned(b)
      modifies this`n, block, cache
      ensures Issued(old(cache.disk), old(cache.trace), RecoverWrites(layout, old(cache.disk)), k)
      ensures ok ==> k == |RecoverWrites(layout, old(cache.disk))|
      ensures ok ==> Valid() && n == 0 && cache.Quiet()
      ensures old(cache.Idle()) ==> ok && cache.Idle()
    {
      hide Linked, Permutation, Bcache.OneSlotPerBlock, Bcache.CountsExact, Bcache.Coherent, Bcache.Idle,
        Bcache.Exhausted;
      hide Bcache.View, Bcache.ViewAt, Bcache.Pinned, Bcache.InUse, Apply, PutHead, Word, CopiedHome;
      ghost var d0, t0 := cache.disk, cache.trace;
      ghost var ws := RecoverWrites(layout, d0);
      ghost var homes := Announced(d0[layout.start]);
      IssuedStart(ws);
      k := 0;
      AllAtRest();
      if cache.Idle() { CanReadAtBoot(); }
      ok := ReadHead(pid);
      if !ok { return; }
      assert block[..n] == homes;
      assert forall i | 0 <= i < n :: ws[i] == Write(homes[i], cache.View()[layout.start + 1 + i]);
      ghost var v0 := cache.View();
      ok, k := InstallTrans(pid, d0, t0, ws, 0);
      if !ok { return; }
      HomesLeaveHeader(homes, v0, cache.View());
      n := 0;
      if cache.Idle() { CanRead(); }
      ok := WriteHeadAs(pid, d0, t0, ws, k);
      if !ok { return; }
      k := k + 1;
      AllAtRest();
    }

    lemma HomesLeaveHeader(homes: seq<nat>, v0: Device, v: Device)
      requires GoodHomes(layout, homes, |v0|) && CopiedHome(layout, homes, v0, |homes|, v)
      ensures v[layout.start] == v0[layout.start]
    {
    }
  }
}
