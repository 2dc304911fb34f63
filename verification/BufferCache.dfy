/** bio.c over memide.c: the buffer cache with its circular LRU list, refining a flat device. */
module BufferCache {
  import opened Common
  import opened Disk

  const NBUF := 30
  const HEAD := NBUF        // index of the list head, which is not a buffer
  const ROOTDEV := 1

  /** struct buf; `locked`/`pid` are its sleep lock. */
  datatype Buf = Buf(dev: nat, blockno: nat, valid: bool, dirty: bool, refcnt: nat,
                     locked: bool, pid: nat, data: Block) {
    function Key(): (nat, nat) { (dev, blockno) }
  }

  const UNUSED_KEY := (0, 0)

  // ---------------------------------------------------------------- the LRU list

  /** The cycle head, order[0], order[1], ..., head, written out once around. */
  function Ring(order: seq<nat>): (r: seq<nat>) {
    [HEAD] + order + [HEAD]
  }

  /** `order` lists distinct buffers. */
  predicate Distinct(order: seq<nat>) {
    && (forall k | 0 <= k < |order| :: order[k] < NBUF)
    && (forall j, k | 0 <= j < k < |order| :: order[j] != order[k])
  }

  /** `next` and `prev` walk the ring in opposite directions. */
  predicate Linked(prev: seq<nat>, next: seq<nat>, order: seq<nat>) {
    && |prev| == |next| == NBUF + 1
    && Distinct(order)
    && (forall k | 0 <= k <= |order| :: next[Ring(order)[k]] == Ring(order)[k + 1])
    && (forall k | 0 <= k <= |order| :: prev[Ring(order)[k + 1]] == Ring(order)[k])
  }

  predicate Permutation(order: seq<nat>) {
    |order| == NBUF && Distinct(order) && forall i | 0 <= i < NBUF :: i in order
  }

  function Without(order: seq<nat>, k: nat): (r: seq<nat>)
    requires k < |order|
  {
    order[..k] + order[k + 1..]
  }

  /** Taking buffer order[k] out of the list. */
  lemma UnlinkKeepsLinked(prev: seq<nat>, next: seq<nat>, order: seq<nat>, k: nat)
    requires Linked(prev, next, order) && k < |order|
    ensures var b := order[k];
            && prev[b] <= NBUF && next[b] <= NBUF
            && Linked(prev[next[b] := prev[b]], next[prev[b] := next[b]], Without(order, k))
  {
    var b, r, w := order[k], Ring(order), Ring(Without(order, k));
    assert r[k + 1] == b && next[b] == r[k + 2] && prev[b] == r[k];
    assert forall j | 0 <= j <= k :: w[j] == r[j];
    assert forall j | k < j < |w| :: w[j] == r[j + 1];
    forall j | 0 <= j < |order|
      ensures next[prev[b] := next[b]][w[j]] == w[j + 1]
      ensures prev[next[b] := prev[b]][w[j + 1]] == w[j]
    {
      if j < k {
        assert w[j] == r[j] && w[j + 1] == r[j + 1];
      } else if j > k {
        assert w[j] == r[j + 1] && w[j + 1] == r[j + 2];
      }
    }
  }

  /** Putting a buffer that is not in the list right after the head. */
  lemma PushKeepsLinked(prev: seq<nat>, next: seq<nat>, order: seq<nat>, b: nat)
    requires Linked(prev, next, order) && b < NBUF && b !in order
    ensures next[HEAD] <= NBUF
    ensures Linked(prev[b := HEAD][next[HEAD] := b], next[b := next[HEAD]][HEAD := b], [b] + order)
  {
    var r, w := Ring(order), Ring([b] + order);
    assert next[HEAD] == r[1] && r[0] == HEAD;
    assert w[0] == HEAD && w[1] == b;
    assert forall j | 2 <= j < |w| :: w[j] == r[j - 1];
    var next', prev' := next[b := next[HEAD]][HEAD := b], prev[b := HEAD][next[HEAD] := b];
    forall j | 0 <= j <= |order| + 1
      ensures next'[w[j]] == w[j + 1] && prev'[w[j + 1]] == w[j]
    {
      if j >= 2 {
        assert w[j] == r[j - 1] == order[j - 2] && w[j + 1] == r[j];
        assert next[r[j - 1]] == r[j] && prev[r[j]] == r[j - 1];
      }
    }
  }

  // ---------------------------------------------------------------- the cache

  /** i is most recently used, and the others have kept their order. */
  ghost predicate MovedToFront(order: seq<nat>, i: nat, r: seq<nat>) {
    exists k | 0 <= k < |order| && order[k] == i :: r == [i] + Without(order, k)
  }

  /** Taking a buffer out and putting it in front gives a permutation again. */
  lemma FrontPermutes(order: seq<nat>, i: nat)
    requires Permutation(order) && i < NBUF
    ensures exists k | 0 <= k < |order| && order[k] == i ::
              i !in Without(order, k) && Permutation([i] + Without(order, k))
  {
    assert i in order;
    var k :| 0 <= k < |order| && order[k] == i;
    var w := Without(order, k);
    assert (forall j | 0 <= j < k :: w[j] == order[j]) && forall j | k <= j < |w| :: w[j] == order[j + 1];
    WithoutOne(order, k, w);
  }

  lemma WithoutOne(order: seq<nat>, k: nat, w: seq<nat>)
    requires Permutation(order) && k < |order| && |w| == |order| - 1
    requires (forall j | 0 <= j < k :: w[j] == order[j]) && forall j | k <= j < |w| :: w[j] == order[j + 1]
    ensures order[k] !in w && Permutation([order[k]] + w)
  {
    var r := [order[k]] + w;
    assert forall j | 0 <= j < |w| :: r[j + 1] == w[j];
    forall j | 0 <= j < NBUF ensures j in r {
      assert j in order;
      var m :| 0 <= m < NBUF && order[m] == j;
      if m < k { assert r[m + 1] == j; } else if m > k { assert r[m] == w[m - 1] == j; } else { assert r[0] == j; }
    }
  }

  lemma Neighbours(prev: seq<nat>, next: seq<nat>, order: seq<nat>, i: nat)
    requires Linked(prev, next, order) && i <= NBUF
    ensures |prev| == |next| == NBUF + 1
  {
  }

  // ---------------------------------------------------------------- counting

  /** An injective map cannot shrink a set. */
  lemma {:induction false} InjectionGrows(d: set<nat>, h: set<nat>, f: map<nat, nat>)
    requires forall i | i in d :: i in f && f[i] in h
    requires forall i, j | i in d && j in d && i != j :: f[i] != f[j]
    ensures |d| <= |h|
  {
    if d != {} {
      var i :| i in d;
      InjectionGrows(d - {i}, h - {f[i]}, f);
    }
  }

  lemma {:induction false} ListedOnce(homes: seq<nat>)
    ensures |Listed(homes)| <= |homes|
    ensures (forall i, j | 0 <= i < j < |homes| :: homes[i] != homes[j]) ==> |Listed(homes)| == |homes|
  {
    if homes != [] {
      var n := |homes| - 1;
      ListedOnce(homes[..n]);
      assert homes == homes[..n] + [homes[n]];
      assert Listed(homes) == Listed(homes[..n]) + {homes[n]};
    }
  }

  function Listed(homes: seq<nat>): (r: set<nat>) { set b | b in homes }

  function Below(n: nat): (r: set<nat>)
    ensures |r| == n && forall i: nat :: i in r <==> i < n
  {
    if n == 0 then {} else Below(n - 1) + {n - 1}
  }

  /** A set of k numbers leaves out one of the first NBUF if k < NBUF, and two if k + 1 < NBUF. */
  lemma Outside(d: set<nat>, k: nat)
    requires |d| <= k
    ensures k < NBUF ==> exists i | 0 <= i < NBUF :: i !in d
    ensures k + 1 < NBUF ==> exists i, j | 0 <= i < j < NBUF :: i !in d && j !in d
  {
    hide Below;
    var rest := Below(NBUF) - d;
    assert |rest| >= NBUF - k by {
      assert Below(NBUF) == rest + (Below(NBUF) * d);
      InjectionGrows(Below(NBUF) * d, d, map i | i in Below(NBUF) * d :: i);
    }
    if k < NBUF {
      var i :| i in rest;
      if k + 1 < NBUF {
        assert |rest - {i}| >= 1;
        var j :| j in rest - {i};
        if j < i { assert 0 <= j < i < NBUF; }
      }
    }
  }

  // ---------------------------------------------------------------- what buffers say of a block

  ghost predicate Slots(bufs: seq<Buf>, slot: map<(nat, nat), nat>) {
    && |bufs| == NBUF
    && (forall i | 0 <= i < NBUF && bufs[i].Key() != UNUSED_KEY :: bufs[i].Key() in slot && slot[bufs[i].Key()] == i)
    && (forall k | k in slot :: slot[k] < NBUF && bufs[slot[k]].Key() == k && k != UNUSED_KEY)
  }

  ghost function ViewOf(bufs: seq<Buf>, slot: map<(nat, nat), nat>, disk: Device, b: nat): (r: Block)
    requires Slots(bufs, slot) && b < |disk|
  {
    if (ROOTDEV, b) in slot && bufs[slot[(ROOTDEV, b)]].valid then bufs[slot[(ROOTDEV, b)]].data else disk[b]
  }

  ghost predicate PinnedIn(bufs: seq<Buf>, slot: map<(nat, nat), nat>, b: nat)
    requires Slots(bufs, slot)
  {
    (ROOTDEV, b) in slot && bufs[slot[(ROOTDEV, b)]].dirty
  }

  ghost predicate UsedIn(bufs: seq<Buf>, slot: map<(nat, nat), nat>, b: nat)
    requires Slots(bufs, slot)
  {
    (ROOTDEV, b) in slot && bufs[slot[(ROOTDEV, b)]].locked
  }

  /** Re-purposing a clean unlocked buffer that agrees with the disk changes nothing a reader can see. */
  lemma Recycled(bufs: seq<Buf>, slot: map<(nat, nat), nat>, disk: Device, b: nat, bufs': seq<Buf>,
                 slot': map<(nat, nat), nat>)
    requires Slots(bufs, slot) && b < NBUF && !bufs[b].dirty && !bufs[b].locked && |bufs'| == NBUF
             && bufs' == bufs[b := bufs'[b]]
    requires bufs[b].valid && bufs[b].dev == ROOTDEV && bufs[b].blockno < |disk| ==>
               bufs[b].data == disk[bufs[b].blockno]
    requires bufs'[b].Key() != UNUSED_KEY && bufs'[b].Key() !in slot && !bufs'[b].valid && !bufs'[b].dirty
             && !bufs'[b].locked
    requires slot' == (slot - {bufs[b].Key()})[bufs'[b].Key() := b]
    ensures Slots(bufs', slot')
    ensures forall c | 0 <= c < |disk| :: ViewOf(bufs', slot', disk, c) == ViewOf(bufs, slot, disk, c)
    ensures forall c: nat :: PinnedIn(bufs', slot', c) == PinnedIn(bufs, slot, c)
                             && UsedIn(bufs', slot', c) == UsedIn(bufs, slot, c)
  {
  }

  /** How a call of bread goes on: with the locked buffer, waiting for its lock, or in a panic. */
  datatype Read = Got(buf: nat) | Waits(buf: nat) | Panics

  class Bcache {
    var disk: Device
    var bufs: seq<Buf>
    var prev: seq<nat>
    var next: seq<nat>
    ghost var trace: seq<Write>          // block writes that reached the device, oldest first
    ghost var order: seq<nat>            // the list, most recently used first
    ghost var waiting: seq<nat>          // callers of bget that have not yet taken the sleep lock
    ghost var slot: map<(nat, nat), nat> // which buffer caches a block

    /** At most one buffer per (dev, blockno) other than the unused (0, 0). */
    ghost predicate OneSlotPerBlock()
      reads this
    {
      Slots(bufs, slot)
    }

    ghost predicate CountsExact()
      reads this
    {
      && |bufs| == |waiting| == NBUF
      && (forall i | 0 <= i < NBUF :: bufs[i].refcnt == waiting[i] + (if bufs[i].locked then 1 else 0))
    }

    /** A buffer at rest that is valid and clean equals its block on the device. */
    ghost predicate Coherent()
      reads this
    {
      && |bufs| == NBUF
      && (forall i | 0 <= i < NBUF :: bufs[i].dirty ==> bufs[i].valid)
      && (forall i | 0 <= i < NBUF && bufs[i].valid :: bufs[i].dev == ROOTDEV && bufs[i].blockno < |disk|)
      && (forall i | 0 <= i < NBUF && bufs[i].valid && !bufs[i].dirty && !bufs[i].locked ::
            bufs[i].data == disk[bufs[i].blockno])
    }

    ghost predicate Valid()
      reads this
    {
      && Linked(prev, next, order)
      && Permutation(order)
      && OneSlotPerBlock()
      && CountsExact()
      && Coherent()
    }

    ghost predicate Cached(b: nat)
      requires OneSlotPerBlock()
      reads this
    {
      (ROOTDEV, b) in slot
    }

    /** What a read of block b sees. */
    ghost function ViewAt(b: nat): (r: Block)
      requires OneSlotPerBlock() && b < |disk|
      reads this
    {
      ViewOf(bufs, slot, disk, b)
    }

    ghost function View(): (r: Device)
      requires OneSlotPerBlock()
      reads this
      ensures |r| == |disk|
    {
      seq(|disk|, b requires OneSlotPerBlock() && 0 <= b < |disk| reads this => ViewAt(b))
    }

    ghost predicate Pinned(b: nat)
      requires OneSlotPerBlock()
      reads this
    {
      PinnedIn(bufs, slot, b)
    }

    ghost predicate InUse(b: nat)
      requires OneSlotPerBlock()
      reads this
    {
      UsedIn(bufs, slot, b)
    }

    /** Process pid holds buffer i, which caches block b and has been read in. */
    ghost predicate Holds(i: nat, b: nat, pid: nat)
      reads this
    {
      && i < |bufs|
      && bufs[i].Key() == (ROOTDEV, b) && bufs[i].valid && bufs[i].locked && bufs[i].pid == pid
    }

    /** No buffer is held. */
    ghost predicate Quiet()
      requires OneSlotPerBlock()
      reads this
    {
      forall b: nat :: !InUse(b)
    }

    /** No buffer is held or waited for. */
    ghost predicate Idle()
      reads this
    {
      forall i | 0 <= i < |bufs| :: bufs[i].refcnt == 0
    }

    /** No buffer can be recycled. */
    ghost predicate Exhausted()
      reads this
    {
      forall i | 0 <= i < |bufs| :: bufs[i].refcnt > 0 || bufs[i].dirty
    }

    /** The cache refines the device: only pinned or held blocks can differ from it. */
    lemma AtRest(b: nat)
      requires Valid() && b < |disk| && !Pinned(b) && !InUse(b)
      ensures View()[b] == disk[b]
    {
      assert View()[b] == ViewAt(b);
    }

    /** The buffers that cannot be recycled because they are pinned. */
    ghost function Dirty(): (r: set<nat>)
      requires |bufs| == NBUF
      reads this
    {
      set i | 0 <= i < NBUF && bufs[i].dirty
    }

    lemma DirtyCard(homes: seq<nat>)
      requires Valid() && forall b: nat :: Pinned(b) ==> b in homes
      ensures |Dirty()| <= |homes|
    {
      hide Linked, Permutation;
      var f := map i | i in Dirty() :: bufs[i].blockno;
      forall i | i in Dirty() ensures f[i] in Listed(homes) && slot[(ROOTDEV, f[i])] == i { assert Pinned(f[i]); }
      InjectionGrows(Dirty(), Listed(homes), f);
      ListedOnce(homes);
    }

    /** Fewer pinned blocks than buffers leave buffers to recycle. */
    lemma SomeClean(homes: seq<nat>)
      requires Valid() && forall b: nat :: Pinned(b) ==> b in homes
      ensures |homes| < NBUF ==> exists i | 0 <= i < NBUF :: !bufs[i].dirty
      ensures |homes| + 1 < NBUF ==> exists i, j | 0 <= i < j < NBUF :: !bufs[i].dirty && !bufs[j].dirty
    {
      hide Linked, Permutation;
      DirtyCard(homes);
      Outside(Dirty(), |homes|);
    }

    /** As many pinned blocks as buffers leave none, and nothing else is cached. */
    lemma AllDirty(homes: seq<nat>)
      requires Valid() && |homes| == NBUF && (forall b: nat :: Pinned(b) <==> b in homes)
      requires forall i, j | 0 <= i < j < |homes| :: homes[i] != homes[j]
      ensures forall i | 0 <= i < NBUF :: bufs[i].dirty
      ensures forall b: nat :: Cached(b) ==> b in homes
    {
      hide Linked, Permutation, Below;
      var f := map b | b in Listed(homes) :: slot[(ROOTDEV, b)];
      InjectionGrows(Listed(homes), Dirty(), f);
      ListedOnce(homes);
      forall i | 0 <= i < NBUF ensures bufs[i].dirty {
        if !bufs[i].dirty { InjectionGrows(Dirty(), Below(NBUF) - {i}, map k | k in Dirty() :: k); }
      }
      forall b: nat | Cached(b) ensures b in homes { assert Pinned(b); }
    }

    /** Why write_log cannot begin when the log pins every buffer: a block outside the logged ones is not cached,
        and no buffer can be recycled for it. */
    lemma NothingToRecycle(homes: seq<nat>, b: nat)
      requires Valid() && |homes| == NBUF && (forall c: nat :: Pinned(c) <==> c in homes) && b !in homes
      requires forall i, j | 0 <= i < j < |homes| :: homes[i] != homes[j]
      ensures !Cached(b) && Exhausted()
    {
      AllDirty(homes);
    }

    constructor (image: Device)
      ensures Valid() && disk == image && trace == []
      ensures View() == image
      ensures Quiet() && Idle() && forall b: nat :: !Pinned(b)
    {
      disk, trace := image, [];
      bufs := seq(NBUF, _ => Buf(0, 0, false, false, 0, false, 0, ZERO_BLOCK));
      prev, next := seq(NBUF + 1, _ => HEAD), seq(NBUF + 1, _ => HEAD);
      order, waiting, slot := [], seq(NBUF, _ => 0), map[];
      new;
      for b := 0 to NBUF
        invariant Linked(prev, next, order) && |order| == b
        invariant forall i | 0 <= i < b :: i in order
        invariant forall k | 0 <= k < |order| :: order[k] < b
        invariant OneSlotPerBlock() && CountsExact() && Coherent() && Idle()
        invariant disk == image && trace == [] && slot == map[]
      {
        PushKeepsLinked(prev, next, order, b);
        PushFront(b);
      }
    }

    /** The pointer updates that put b right after the head. */
    method PushFront(b: nat)
      requires |prev| == |next| == NBUF + 1 && b < NBUF && next[HEAD] <= NBUF
      modifies this`prev, this`next, this`order
      ensures next == old(next)[b := old(next)[HEAD]][HEAD := b]
      ensures prev == old(prev)[b := HEAD][old(next)[HEAD] := b]
      ensures order == [b] + old(order)
    {
      next := next[b := next[HEAD]];
      prev := prev[b := HEAD];
      prev := prev[next[HEAD] := b];
      next := next[HEAD := b];
      order := [b] + order;
    }

    /** bget's first scan: most recently used first. */
    method FindCached(dev: nat, blockno: nat) returns (r: Option<nat>)
      requires Valid() && (dev, blockno) != UNUSED_KEY
      ensures r.Some? <==> (dev, blockno) in slot
      ensures r.Some? ==> r.value == slot[(dev, blockno)]
    {
      var b := next[HEAD];
      ghost var k := 0;
      assert Ring(order)[0] == HEAD;
      while b != HEAD
        invariant 0 <= k <= NBUF && b == Ring(order)[k + 1]
        invariant forall j | 0 <= j < k :: bufs[order[j]].Key() != (dev, blockno)
        decreases NBUF - k
      {
        assert b == order[k];
        if bufs[b].dev == dev && bufs[b].blockno == blockno {
          return Some(b);
        }
        b, k := next[b], k + 1;
      }
      forall i | 0 <= i < NBUF ensures bufs[i].Key() != (dev, blockno) {
        assert i in order && k == NBUF;
      }
      return None;
    }

    /** bget's second scan: the least recently used buffer that is neither referenced nor pinned. */
    method FindIdle() returns (r: Option<nat>)
      requires Valid()
      ensures r.None? <==> forall i | 0 <= i < NBUF :: bufs[i].refcnt > 0 || bufs[i].dirty
      ensures r.Some? ==> r.value < NBUF && exists k | 0 <= k < NBUF ::
                            && order[k] == r.value && bufs[r.value].refcnt == 0 && !bufs[r.value].dirty
                            && forall j | k < j < NBUF :: bufs[order[j]].refcnt > 0 || bufs[order[j]].dirty
    {
      var b := prev[HEAD];
      ghost var k := NBUF;
      assert Ring(order)[NBUF + 1] == HEAD;
      while b != HEAD
        invariant 0 <= k <= NBUF && b == Ring(order)[k]
        invariant forall j | k <= j < NBUF :: bufs[order[j]].refcnt > 0 || bufs[order[j]].dirty
        decreases k
      {
        assert b == order[k - 1];
        if bufs[b].refcnt == 0 && !bufs[b].dirty {
          return Some(b);
        }
        b, k := prev[b], k - 1;
      }
      forall i | 0 <= i < NBUF ensures bufs[i].refcnt > 0 || bufs[i].dirty {
        assert i in order && k == 0;
      }
      return None;
    }

    /** bget up to the release of bcache.lock: find or recycle a buffer and take a reference.
        None is the "no buffers" panic. */
    method Lookup(dev: nat, blockno: nat) returns (r: Option<nat>)
      requires Valid() && (dev, blockno) != UNUSED_KEY
      modifies this`bufs, this`waiting, this`slot
      ensures Valid()
      ensures r.None? <==> (dev, blockno) !in old(slot) && old(Exhausted())
      ensures r.None? ==> bufs == old(bufs) && slot == old(slot) && waiting == old(waiting)
      ensures r.Some? ==> r.value < NBUF && bufs[r.value].Key() == (dev, blockno)
      ensures r.Some? ==> waiting == old(waiting)[r.value := old(waiting[r.value]) + 1]
      ensures r.Some? ==> forall j | 0 <= j < NBUF && j != r.value :: bufs[j] == old(bufs[j])
      ensures r.Some? ==> bufs[r.value].locked == old(bufs[r.value].locked)
                          && bufs[r.value].pid == old(bufs[r.value].pid)
      ensures r.Some? ==> bufs[r.value].refcnt == old(bufs[r.value].refcnt) + 1
                          && bufs[r.value].dirty == old(bufs[r.value].dirty)
      ensures (dev, blockno) in old(slot) ==>
                r.value == old(slot)[(dev, blockno)]
                && bufs == old(bufs)[r.value := old(bufs[r.value]).(refcnt := old(bufs[r.value].refcnt) + 1)]
      ensures View() == old(View())
      ensures forall b: nat :: Pinned(b) == old(Pinned(b)) && InUse(b) == old(InUse(b))
    {
      hide Linked, Permutation;
      r := FindCached(dev, blockno);
      if r.Some? {
        Reference(r.value);
      } else {
        r := FindIdle();
        if r.Some? {
          Recycle(r.value, dev, blockno);
        }
      }
    }

    method Reference(b: nat)
      requires Valid() && b < NBUF
      modifies this`bufs, this`waiting
      ensures Valid()
      ensures bufs == old(bufs)[b := old(bufs[b]).(refcnt := old(bufs[b].refcnt) + 1)]
      ensures waiting == old(waiting)[b := old(waiting[b]) + 1]
      ensures View() == old(View())
      ensures forall c: nat :: Pinned(c) == old(Pinned(c)) && InUse(c) == old(InUse(c))
    {
      hide Linked, Permutation;
      bufs := bufs[b := bufs[b].(refcnt := bufs[b].refcnt + 1)];
      waiting := waiting[b := waiting[b] + 1];
      assert forall c | 0 <= c < |disk| :: ViewAt(c) == old(ViewAt(c));
    }

    /** Re-purposing an idle clean buffer changes nothing a reader can see. */
    method Recycle(b: nat, dev: nat, blockno: nat)
      requires Valid() && b < NBUF && bufs[b].refcnt == 0 && !bufs[b].dirty
      requires (dev, blockno) != UNUSED_KEY && (dev, blockno) !in slot
      modifies this`bufs, this`waiting, this`slot
      ensures Valid()
      ensures bufs[b].Key() == (dev, blockno) && bufs[b].locked == old(bufs[b].locked)
              && bufs[b].pid == old(bufs[b].pid)
      ensures bufs[b].refcnt == 1 && !bufs[b].dirty
      ensures waiting == old(waiting)[b := old(waiting[b]) + 1]
      ensures forall j | 0 <= j < NBUF && j != b :: bufs[j] == old(bufs[j])
      ensures View() == old(View())
      ensures forall c: nat :: Pinned(c) == old(Pinned(c)) && InUse(c) == old(InUse(c))
    {
      hide Linked, Permutation, ViewOf, PinnedIn, UsedIn;
      slot := (slot - {bufs[b].Key()})[(dev, blockno) := b];
      bufs := bufs[b := bufs[b].(dev := dev, blockno := blockno, valid := false, dirty := false, refcnt := 1)];
      waiting := waiting[b := waiting[b] + 1];
      Recycled(old(bufs), old(slot), disk, b, bufs, slot);
      assert forall c | 0 <= c < |disk| :: View()[c] == ViewOf(bufs, slot, disk, c) == old(View())[c];
    }

    /** acquiresleep on a referenced buffer, from the moment the lock is free. */
    method AcquireSleep(i: nat, pid: nat)
      requires Valid() && i < NBUF && waiting[i] > 0 && !bufs[i].locked
      modifies this`bufs, this`waiting
      ensures Valid()
      ensures bufs == old(bufs)[i := old(bufs[i]).(locked := true, pid := pid)]
      ensures waiting == old(waiting)[i := old(waiting[i]) - 1]
      ensures View() == old(View())
      ensures forall b: nat :: Pinned(b) == old(Pinned(b))
      ensures forall b: nat :: InUse(b) == (old(InUse(b)) || bufs[i].Key() == (ROOTDEV, b))
    {
      hide Linked, Permutation;
      bufs := bufs[i := bufs[i].(locked := true, pid := pid)];
      waiting := waiting[i := waiting[i] - 1];
      assert forall c | 0 <= c < |disk| :: ViewAt(c) == old(ViewAt(c));
    }

    /** memide.c's iderw: a dirty buffer goes to the device, an invalid one comes from it. */
    method Iderw(i: nat, pid: nat) returns (ok: bool)
      requires Valid() && i < NBUF
      modifies this`bufs, this`disk, this`trace
      ensures ok <==> old(bufs[i].locked && bufs[i].pid == pid && !(bufs[i].valid && !bufs[i].dirty)
                          && bufs[i].dev == ROOTDEV && bufs[i].blockno < |disk|)
      ensures !ok ==> bufs == old(bufs) && disk == old(disk) && trace == old(trace)
      ensures Valid() && View() == old(View()) && |disk| == old(|disk|)
      ensures ok && old(bufs[i].dirty) ==>
                && disk == old(disk[bufs[i].blockno := bufs[i].data])
                && trace == old(trace) + [Write(old(bufs[i].blockno), old(bufs[i].data))]
                && bufs == old(bufs[i := bufs[i].(dirty := false)])
      ensures ok && !old(bufs[i].dirty) ==>
                && disk == old(disk) && trace == old(trace)
                && bufs == old(bufs[i := bufs[i].(valid := true, data := disk[bufs[i].blockno])])
    {
      hide Linked, Permutation;
      var b := bufs[i];
      if !(b.locked && b.pid == pid) || (b.valid && !b.dirty) || b.dev != ROOTDEV || b.blockno >= |disk| {
        return false;
      }
      if b.dirty {
        WriteOut(i);
      } else {
        ReadIn(i);
      }
      ok := true;
    }

    method WriteOut(i: nat)
      requires Valid() && i < NBUF && bufs[i].dirty
      modifies this`bufs, this`disk, this`trace
      ensures Valid() && View() == old(View())
      ensures disk == old(disk[bufs[i].blockno := bufs[i].data])
      ensures trace == old(trace) + [Write(old(bufs[i].blockno), old(bufs[i].data))]
      ensures bufs == old(bufs[i := bufs[i].(dirty := false)])
    {
      hide Linked, Permutation;
      var b := bufs[i];
      assert slot[(ROOTDEV, b.blockno)] == i;
      bufs := bufs[i := b.(dirty := false, valid := true)];
      disk := disk[b.blockno := b.data];
      trace := trace + [Write(b.blockno, b.data)];
      assert forall c | 0 <= c < |disk| :: ViewAt(c) == old(ViewAt(c));
    }

    method ReadIn(i: nat)
      requires Valid() && i < NBUF && !bufs[i].valid && bufs[i].dev == ROOTDEV && bufs[i].blockno < |disk|
      modifies this`bufs
      ensures Valid() && View() == old(View())
      ensures bufs == old(bufs[i := bufs[i].(valid := true, data := disk[bufs[i].blockno])])
    {
      hide Linked, Permutation;
      var b := bufs[i];
      assert slot[(ROOTDEV, b.blockno)] == i;
      bufs := bufs[i := b.(data := disk[b.blockno], valid := true)];
      assert forall c | 0 <= c < |disk| :: ViewAt(c) == old(ViewAt(c));
    }

    /** bread, up to where it has to wait for the buffer's sleep lock if another process holds it. A waiting
        caller has its reference, so that the buffer goes on caching the block. */
    method Bread(blockno: nat, pid: nat) returns (r: Read)
      requires Valid()
      modifies this`bufs, this`waiting, this`slot, this`disk, this`trace
      ensures Valid() && disk == old(disk) && trace == old(trace) && View() == old(View())
              && |bufs| == |old(bufs)| == NBUF
      ensures forall b: nat :: Pinned(b) == old(Pinned(b))
      ensures r.Waits? <==> old(InUse(blockno))
      ensures r.Waits? ==> r.buf < NBUF && bufs[r.buf].Key() == (ROOTDEV, blockno)
                           && waiting == old(waiting)[r.buf := old(waiting)[r.buf] + 1]
      ensures r.Waits? ==> bufs == old(bufs)[r.buf := old(bufs[r.buf]).(refcnt := old(bufs[r.buf].refcnt) + 1)]
      ensures r.Panics? <==> !old(InUse(blockno)) && (blockno >= |disk| || (!old(Cached(blockno)) && old(Exhausted())))
      ensures r.Got? ==> Holds(r.buf, blockno, pid) && blockno < |disk| && bufs[r.buf].data == View()[blockno]
      ensures r.Got? ==> forall b: nat :: InUse(b) == (old(InUse(b)) || b == blockno)
      ensures r.Got? ==> forall j | 0 <= j < NBUF && j != r.buf :: bufs[j] == old(bufs[j])
      ensures r.Got? ==> !old(bufs[r.buf].locked) && bufs[r.buf].dirty == old(bufs[r.buf].dirty)
      ensures r.Got? ==> bufs[r.buf].refcnt == old(bufs[r.buf].refcnt) + 1
    {
      hide Linked, Permutation;
      var i := Lookup(ROOTDEV, blockno);
      if i.None? { return Panics; }
      assert slot[(ROOTDEV, blockno)] == i.value;
      if bufs[i.value].locked { return Waits(i.value); }
      var ok := BreadWoken(i.value, blockno, pid);
      return if ok then Got(i.value) else Panics;
    }

    /** bread, from the moment the lock a caller waited for is free. */
    method BreadWoken(i: nat, blockno: nat, pid: nat) returns (ok: bool)
      requires Valid() && i < NBUF && waiting[i] > 0 && !bufs[i].locked && bufs[i].Key() == (ROOTDEV, blockno)
      modifies this`bufs, this`waiting, this`disk, this`trace
      ensures Valid() && disk == old(disk) && trace == old(trace) && View() == old(View())
      ensures waiting == old(waiting)[i := old(waiting)[i] - 1]
      ensures forall b: nat :: Pinned(b) == old(Pinned(b)) && InUse(b) == (old(InUse(b)) || b == blockno)
      ensures ok <==> blockno < |disk|
      ensures ok ==> Holds(i, blockno, pid) && bufs[i].data == View()[blockno]
      ensures forall j | 0 <= j < NBUF && j != i :: bufs[j] == old(bufs[j])
      ensures bufs[i].dirty == old(bufs[i].dirty) && bufs[i].refcnt == old(bufs[i].refcnt)
    {
      hide Linked, Permutation;
      AcquireSleep(i, pid);
      assert slot[(ROOTDEV, blockno)] == i;
      if !bufs[i].valid {
        ok := Iderw(i, pid);
        if !ok { return; }
      }
      assert bufs[i].data == ViewAt(blockno);
      ok := true;
    }

    /** bwrite. */
    method Bwrite(i: nat, blockno: nat, pid: nat)
      requires Valid() && Holds(i, blockno, pid)
      modifies this`bufs, this`disk, this`trace
      ensures Valid() && Holds(i, blockno, pid) && View() == old(View()) && |disk| == old(|disk|) && blockno < |disk|
      ensures disk == old(disk)[blockno := View()[blockno]]
      ensures trace == old(trace) + [Write(blockno, View()[blockno])]
      ensures bufs == old(bufs)[i := old(bufs[i]).(dirty := false)]
      ensures forall b: nat :: Pinned(b) == (old(Pinned(b)) && b != blockno)
      ensures forall b: nat :: InUse(b) == old(InUse(b))
    {
      hide Linked, Permutation;
      assert slot[(ROOTDEV, blockno)] == i;
      bufs := bufs[i := bufs[i].(dirty := true)];
      assert forall c | 0 <= c < |disk| :: ViewAt(c) == old(ViewAt(c));
      assert View() == old(View());
      var ok := Iderw(i, pid);
      assert ok;
      assert ViewAt(blockno) == bufs[i].data;
    }

    /** The holder overwrites the cached copy. */
    method Store(i: nat, blockno: nat, pid: nat, data: Block)
      requires Valid() && Holds(i, blockno, pid)
      modifies this`bufs
      ensures Valid() && Holds(i, blockno, pid) && blockno < |disk|
      ensures bufs == old(bufs)[i := old(bufs[i]).(data := data)]
      ensures View() == old(View())[blockno := data]
      ensures forall b: nat :: Pinned(b) == old(Pinned(b)) && InUse(b) == old(InUse(b))
    {
      hide Linked, Permutation;
      assert slot[(ROOTDEV, blockno)] == i;
      bufs := bufs[i := bufs[i].(data := data)];
      assert forall c | 0 <= c < |disk| && c != blockno :: ViewAt(c) == old(ViewAt(c));
      assert ViewAt(blockno) == data;
    }

    /** log_write's `b->flags |= B_DIRTY`. */
    method Pin(i: nat, blockno: nat, pid: nat)
      requires Valid() && Holds(i, blockno, pid)
      modifies this`bufs
      ensures Valid() && Holds(i, blockno, pid)
      ensures bufs == old(bufs)[i := old(bufs[i]).(dirty := true)]
      ensures View() == old(View())
      ensures forall b: nat :: Pinned(b) == (old(Pinned(b)) || b == blockno)
      ensures forall b: nat :: InUse(b) == old(InUse(b))
    {
      hide Linked, Permutation;
      assert slot[(ROOTDEV, blockno)] == i;
      bufs := bufs[i := bufs[i].(dirty := true)];
      assert forall c | 0 <= c < |disk| :: ViewAt(c) == old(ViewAt(c));
    }

    /** brelse. The cache stays coherent exactly if the holder has logged or written whatever it changed. */
    method Brelse(i: nat, blockno: nat, pid: nat)
      requires Valid() && Holds(i, blockno, pid)
      modifies this`bufs, this`prev, this`next, this`order
      ensures Valid() <==> old(bufs[i].dirty || bufs[i].data == disk[blockno])
      ensures OneSlotPerBlock() && View() == old(View()) && |bufs| == |old(bufs)| == NBUF
      ensures forall j | 0 <= j < NBUF && j != i :: bufs[j] == old(bufs[j])
      ensures bufs[i] == old(bufs[i]).(locked := false, pid := 0, refcnt := old(bufs[i].refcnt) - 1)
      ensures forall b: nat :: Pinned(b) == old(Pinned(b))
      ensures forall b: nat :: InUse(b) == (old(InUse(b)) && b != blockno)
      ensures bufs[i].refcnt == 0 ==> MovedToFront(old(order), i, order)
      ensures bufs[i].refcnt > 0 ==> order == old(order)
    {
      hide Linked, Permutation;
      assert slot[(ROOTDEV, blockno)] == i;
      bufs := bufs[i := bufs[i].(locked := false, pid := 0, refcnt := bufs[i].refcnt - 1)];
      assert forall c | 0 <= c < |disk| :: ViewAt(c) == old(ViewAt(c));
      assert View() == old(View());
      if bufs[i].refcnt == 0 {
        MoveToFront(i);
      }
    }

    method MoveToFront(i: nat)
      requires Linked(prev, next, order) && Permutation(order) && i < NBUF
      modifies this`prev, this`next, this`order
      ensures Linked(prev, next, order) && Permutation(order) && MovedToFront(old(order), i, order)
    {
      hide Linked, Permutation, Without, Ring;
      FrontPermutes(order, i);
      ghost var k :| 0 <= k < |order| && order[k] == i && i !in Without(order, k)
                     && Permutation([i] + Without(order, k));
      Neighbours(prev, next, order, i);
      UnlinkKeepsLinked(prev, next, order, k);
      prev, next := prev[next[i] := prev[i]], next[prev[i] := next[i]];
      order := Without(order, k);
      PushKeepsLinked(prev, next, order, i);
      Neighbours(prev, next, order, HEAD);
      PushFront(i);
    }
  }
}
