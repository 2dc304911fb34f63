/** umalloc.c: the Kernighan & Ritchie allocator. Addresses count Header units of 8 bytes. */
module Heap {
  import opened Common

  const UNIT := 8               // sizeof(Header)

  /** The units malloc asks for: the rounded payload and one header, in 32-bit arithmetic. */
  function Units(nbytes: nat): (n: nat)
    requires nbytes < LIMIT32
    ensures n >= 1
  {
    (nbytes + UNIT - 1) % LIMIT32 / UNIT + 1
  }

  /** The payload holds the request exactly when the rounding does not wrap. */
  lemma UnitsHold(nbytes: nat)
    requires nbytes < LIMIT32
    ensures (Units(nbytes) - 1) * UNIT >= nbytes <==> nbytes + UNIT - 1 < LIMIT32 || nbytes == 0
  {
    if nbytes + UNIT - 1 >= LIMIT32 {
      assert (nbytes + UNIT - 1) % LIMIT32 == nbytes + UNIT - 1 - LIMIT32;
    }
  }

  // ---------------------------------------------------------------- sbrk

  const MAXREQUEST := 0x7FFF_FFF0    // the largest request malloc can serve

  /** The bytes morecore wants for a request of nunits units. */
  function Need(nunits: nat): (n: nat) { Max(nunits, 4096) * UNIT }

  /** What sbrk answers (None is -1), the recorded size of the process afterwards, and how much memory it then
      has. */
  datatype Break = Break(answer: Option<nat>, sz: nat, has: nat)

  /** sys_sbrk over growproc, for a process of sz bytes, with its argument as a 32-bit pattern read as an
      int; `room` tells whether allocuvm finds the pages. A negative argument shrinks the process to
      sz + n modulo 2^32, unless that is no smaller. If that is 0 all memory goes, but growproc takes it for a
      failure and leaves the recorded size. */
  function Sbrk(sz: nat, arg: nat, room: bool): (b: Break)
    requires 0 < sz < KERNBASE && arg < LIMIT32
  {
    if arg == 0 then Break(Some(sz), sz, sz)
    else if arg < 0x8000_0000 then
      if room && sz + arg < KERNBASE then Break(Some(sz), sz + arg, sz + arg) else Break(None, sz, sz)
    else
      var newsz := (sz + arg) % LIMIT32;
      if newsz >= sz then Break(Some(sz), sz, sz)
      else if newsz == 0 then Break(None, sz, 0)
      else Break(Some(sz), newsz, newsz)
  }

  /** sbrk gave all the bytes asked for, or it gave none and said so. */
  predicate Granted(sz: nat, need: nat, b: Break) {
    b == Break(Some(sz), sz + need, sz + need) || b == Break(None, sz, sz)
  }

  /** morecore's call of sbrk does what it is meant to, exactly if the bytes wanted are positive as an int:
      otherwise sbrk answers the old break without giving any memory, or takes memory away. */
  lemma SbrkGrantsIff(nunits: nat, sz: nat, room: bool)
    requires nunits <= 0x2000_0000 && 0 < sz < KERNBASE
    ensures Granted(sz, Need(nunits), Sbrk(sz, Need(nunits) % LIMIT32, room)) <==> Need(nunits) < 0x8000_0000
  {
    var need := Need(nunits);
    if need == LIMIT32 {
      assert need % LIMIT32 == 0;
    } else {
      assert need % LIMIT32 == need;
    }
  }

  /** The requests that malloc can serve: the block holds them and sbrk can be asked for them. */
  lemma RequestIff(nbytes: nat)
    requires nbytes < LIMIT32
    ensures Units(nbytes) <= 0x2000_0000
    ensures (Units(nbytes) - 1) * UNIT >= nbytes && Need(Units(nbytes)) < 0x8000_0000 <==> nbytes <= MAXREQUEST
  {
    UnitsHold(nbytes);
  }

  /** A request in the middle of the range: the rounding does not wrap, but sbrk is asked for a negative number
      of bytes, changes nothing and answers the end of the process's memory. */
  lemma TooLargeRequest()
    ensures Units(0x8000_0000) == 0x1000_0001 && (Units(0x8000_0000) - 1) * UNIT == 0x8000_0000
    ensures Sbrk(0x1_0000, Need(Units(0x8000_0000)) % LIMIT32, true) == Break(Some(0x1_0000), 0x1_0000, 0x1_0000)
  {
  }

  /** At the other end the rounding wraps: the block holds nothing at all. */
  lemma WrappedRequest()
    ensures Units(0xFFFF_FFFF) == 1 && (Units(0xFFFF_FFFF) - 1) * UNIT == 0
  {
  }

  function Next(i: nat, n: nat): (r: nat)
    requires i < n
    ensures r < n
  {
    if i + 1 < n then i + 1 else 0
  }

  /** The block at position i points to the one at the next position. */
  ghost predicate LinkedAt(list: seq<int>, ptr: map<int, int>, i: nat)
    requires i < |list|
  {
    list[i] in ptr && ptr[list[i]] == list[Next(i, |list|)]
  }

  /** The pointers make one cycle of the listed blocks. */
  ghost predicate Chained(list: seq<int>, ptr: map<int, int>) {
    |list| >= 1 && forall i | 0 <= i < |list| :: LinkedAt(list, ptr, i)
  }

  /** Blocks in address order after `base`, disjoint, and no two of them adjacent. */
  ghost predicate Ordered(base: int, list: seq<int>, size: map<int, nat>) {
    && |list| >= 1 && list[0] == base
    && (forall i | 0 <= i < |list| :: list[i] in size)
    && size[base] == 0
    && (forall i | 1 <= i < |list| :: size[list[i]] >= 1)
    && (forall i, j | 0 <= i < j < |list| :: list[i] + size[list[i]] < list[j])
  }

  ghost predicate InFree(list: seq<int>, size: map<int, nat>, u: int)
    requires forall i | 0 <= i < |list| :: list[i] in size
  {
    exists i | 0 <= i < |list| :: list[i] <= u < list[i] + size[list[i]]
  }

  predicate Within(u: int, lo: int, n: nat) { lo <= u < lo + n }

  ghost predicate NotFree(list: seq<int>, size: map<int, nat>, a: int, n: nat)
    requires forall i | 0 <= i < |list| :: list[i] in size
  {
    forall u | a <= u < a + n :: !InFree(list, size, u)
  }

  ghost predicate InLive(live: map<int, nat>, u: int) {
    exists a | a in live :: a <= u < a + live[a]
  }

  predicate Apart(a: int, m: nat, b: int, n: nat) {
    a + m <= b || b + n <= a
  }

  /** Live blocks keep their headers and share no unit with each other, with a free block or with base. */
  ghost predicate LiveApart(base: int, list: seq<int>, size: map<int, nat>, live: map<int, nat>)
    requires forall i | 0 <= i < |list| :: list[i] in size
  {
    && (forall a | a in live :: a > base && a in size && size[a] == live[a] >= 1)
    && (forall a | a in live :: NotFree(list, size, a, live[a]))
    && (forall a, b | a in live && b in live && a != b :: Apart(a, live[a], b, live[b]))
  }

  /** Every unit obtained from sbrk is in a free block or in a live one, and nothing else is. */
  ghost predicate Partition(list: seq<int>, size: map<int, nat>, live: map<int, nat>, arena: set<int>)
    requires forall i | 0 <= i < |list| :: list[i] in size
  {
    forall u: int :: u in arena <==> InFree(list, size, u) || InLive(live, u)
  }

  // ---------------------------------------------------------------- inserting a block

  /** Block bp of sz units belongs between list[k] and its successor. */
  ghost predicate Between(list: seq<int>, size: map<int, nat>, k: nat, bp: int, sz: nat)
    requires forall i | 0 <= i < |list| :: list[i] in size
  {
    && k < |list| && sz >= 1
    && list[k] < bp && list[k] + size[list[k]] <= bp
    && (k + 1 < |list| ==> bp + sz <= list[k + 1])
  }

  /** What the free list covers after the insertion. */
  ghost predicate Absorbed(list: seq<int>, size: map<int, nat>, list': seq<int>, size': map<int, nat>, bp: int, sz: nat)
    requires forall i | 0 <= i < |list| :: list[i] in size
    requires forall i | 0 <= i < |list'| :: list'[i] in size'
  {
    forall u: int :: InFree(list', size', u) <==> InFree(list, size, u) || bp <= u < bp + sz
  }

  /** r is the list with bp put after position k. */
  predicate Inserted(list: seq<int>, k: nat, bp: int, r: seq<int>)
    requires k < |list|
  {
    && |r| == |list| + 1
    && (forall i | 0 <= i <= k :: r[i] == list[i])
    && r[k + 1] == bp
    && (forall i | k < i < |list| :: r[i + 1] == list[i])
  }

  /** r is the list without position k. */
  predicate Removed(list: seq<int>, k: nat, r: seq<int>)
    requires k < |list|
  {
    && |r| == |list| - 1
    && (forall i | 0 <= i < k :: r[i] == list[i])
    && (forall i | k <= i < |r| :: r[i] == list[i + 1])
  }

  predicate Increasing(list: seq<int>) {
    forall i, j | 0 <= i < j < |list| :: list[i] < list[j]
  }

  lemma OrderedIncreases(base: int, list: seq<int>, size: map<int, nat>)
    requires Ordered(base, list, size)
    ensures Increasing(list)
  {
  }

  lemma ChainInsert(list: seq<int>, ptr: map<int, int>, k: nat, bp: int, r: seq<int>)
    requires Chained(list, ptr) && k < |list| && Increasing(list) && Inserted(list, k, bp, r)
    requires list[k] < bp && (k + 1 < |list| ==> bp < list[k + 1])
    ensures Chained(r, ptr[bp := list[Next(k, |list|)]][list[k] := bp])
  {
    var p := ptr[bp := list[Next(k, |list|)]][list[k] := bp];
    forall i | 0 <= i < |r| ensures LinkedAt(r, p, i) {
      if i < k {
        assert LinkedAt(list, ptr, i) && r[i + 1] == list[i + 1] && list[i] < list[k];
      } else if i == k + 1 {
        assert k + 1 < |list| ==> r[k + 2] == list[k + 1];
      } else if i > k + 1 {
        assert LinkedAt(list, ptr, i - 1) && r[i] == list[i - 1] && (i < |list| ==> r[i + 1] == list[i]);
        assert i - 1 > k + 1 ==> list[k + 1] < list[i - 1];
      }
    }
  }

  lemma ChainRemove(list: seq<int>, ptr: map<int, int>, k: nat, r: seq<int>)
    requires Chained(list, ptr) && 0 < k < |list| && Increasing(list) && Removed(list, k, r)
    ensures LinkedAt(list, ptr, k) && Chained(r, ptr[list[k - 1] := ptr[list[k]]])
  {
    assert LinkedAt(list, ptr, k);
    var p := ptr[list[k - 1] := ptr[list[k]]];
    forall i | 0 <= i < |r| ensures LinkedAt(r, p, i) {
      if i < k - 1 {
        assert LinkedAt(list, ptr, i) && r[i] == list[i] && r[i + 1] == list[i + 1] && list[i] < list[k - 1];
      } else if i > k - 1 {
        assert LinkedAt(list, ptr, i + 1) && r[i] == list[i + 1] && list[k - 1] < list[i + 1];
        assert i + 1 < |r| ==> r[i + 1] == list[i + 2];
      } else {
        assert r[k - 1] == list[k - 1];
      }
    }
  }

  lemma OrderInsert(base: int, list: seq<int>, size: map<int, nat>, k: nat, bp: int, r: seq<int>)
    requires Ordered(base, list, size) && bp in size && Between(list, size, k, bp, size[bp]) && Inserted(list, k, bp, r)
    requires list[k] + size[list[k]] < bp && (k + 1 < |list| ==> bp + size[bp] < list[k + 1])
    ensures Ordered(base, r, size)
  {
    forall i | 0 <= i < |r| ensures r[i] in size && (i >= 1 ==> size[r[i]] >= 1) {
      if i > k + 1 { assert r[i] == list[i - 1]; }
    }
    forall i, j | 0 <= i < j < |r| ensures r[i] + size[r[i]] < r[j] {
      if j <= k {
        assert r[i] == list[i] && r[j] == list[j];
      } else if j == k + 1 {
        assert r[i] == list[i];
        if i < k { assert list[i] + size[list[i]] < list[k]; }
      } else {
        assert r[j] == list[j - 1];
        if i <= k {
          assert r[i] == list[i];
        } else if i > k + 1 {
          assert r[i] == list[i - 1];
        } else if j - 1 > k + 1 {
          assert list[k + 1] + size[list[k + 1]] < list[j - 1];
        }
      }
    }
  }

  lemma InsertCovers(list: seq<int>, size: map<int, nat>, k: nat, bp: int, r: seq<int>)
    requires (forall i | 0 <= i < |list| :: list[i] in size) && (forall i | 0 <= i < |r| :: r[i] in size)
    requires bp in size && k < |list| && Inserted(list, k, bp, r)
    ensures Absorbed(list, size, r, size, bp, size[bp])
  {
    forall u: int ensures InFree(r, size, u) <==> InFree(list, size, u) || bp <= u < bp + size[bp] {
      if i :| 0 <= i < |list| && list[i] <= u < list[i] + size[list[i]] {
        assert r[if i <= k then i else i + 1] == list[i];
      }
      if i :| 0 <= i < |r| && r[i] <= u < r[i] + size[r[i]] {
        assert i == k + 1 || r[i] == list[if i <= k then i else i - 1];
      }
    }
  }

  /** A block grows over free space that follows it. */
  lemma OrderGrow(base: int, list: seq<int>, size: map<int, nat>, k: nat, n: nat)
    requires Ordered(base, list, size) && 0 < k < |list| && n >= 1
    requires k + 1 < |list| ==> list[k] + size[list[k]] + n < list[k + 1]
    ensures var size' := size[list[k] := size[list[k]] + n];
            Ordered(base, list, size') && Absorbed(list, size, list, size', list[k] + size[list[k]], n)
  {
    var size' := size[list[k] := size[list[k]] + n];
    forall i, j | 0 <= i < j < |list| ensures list[i] + size'[list[i]] < list[j] {
      if i == k && j > k + 1 { assert list[k + 1] + size[list[k + 1]] < list[j]; }
    }
    forall u: int ensures InFree(list, size', u) <==>
                          InFree(list, size, u) || list[k] + size[list[k]] <= u < list[k] + size'[list[k]] {
      if i :| 0 <= i < |list| && list[i] <= u < list[i] + size'[list[i]] {
        if i != k { assert list[i] != list[k]; }
      }
      if i :| 0 <= i < |list| && list[i] <= u < list[i] + size[list[i]] {
        assert list[i] <= u < list[i] + size'[list[i]];
      }
      if list[k] + size[list[k]] <= u < list[k] + size'[list[k]] {
        assert list[k] <= u < list[k] + size'[list[k]];
      }
    }
  }

  /** A block leaves the list. */
  lemma OrderRemove(base: int, list: seq<int>, size: map<int, nat>, k: nat, r: seq<int>)
    requires Ordered(base, list, size) && 0 < k < |list| && Removed(list, k, r)
    ensures Ordered(base, r, size)
    ensures forall u: int :: InFree(list, size, u) <==> InFree(r, size, u) || list[k] <= u < list[k] + size[list[k]]
    ensures forall u: int :: InFree(r, size, u) ==> !(list[k] <= u < list[k] + size[list[k]])
  {
    forall i | 0 <= i < |r| ensures r[i] in size && (i >= 1 ==> size[r[i]] >= 1) {
      if i >= k { assert r[i] == list[i + 1]; }
    }
    forall i, j | 0 <= i < j < |r| ensures r[i] + size[r[i]] < r[j] {
      assert r[i] == list[if i < k then i else i + 1] && r[j] == list[if j < k then j else j + 1];
    }
    forall u: int
      ensures InFree(list, size, u) <==> InFree(r, size, u) || list[k] <= u < list[k] + size[list[k]]
      ensures InFree(r, size, u) ==> !(list[k] <= u < list[k] + size[list[k]])
    {
      if i :| 0 <= i < |list| && list[i] <= u < list[i] + size[list[i]] {
        if i != k { assert r[if i < k then i else i - 1] == list[i]; }
      }
      if i :| 0 <= i < |r| && r[i] <= u < r[i] + size[r[i]] {
        assert r[i] == list[if i < k then i else i + 1];
      }
    }
  }

  // ---------------------------------------------------------------- free

  /** The whole invariant of a started heap. */
  ghost predicate Heaped(base: int, list: seq<int>, ptr: map<int, int>, size: map<int, nat>, live: map<int, nat>,
                         arena: set<int>) {
    && Chained(list, ptr) && Ordered(base, list, size)
    && LiveApart(base, list, size, live)
    && Partition(list, size, live, arena)
  }

  /** A live block found between two list addresses lies between those blocks. */
  lemma LiveBetween(base: int, list: seq<int>, size: map<int, nat>, live: map<int, nat>, k: nat, bp: int)
    requires Ordered(base, list, size) && LiveApart(base, list, size, live) && bp in live && k < |list|
    requires list[k] < bp && (k + 1 < |list| ==> bp < list[k + 1])
    ensures Between(list, size, k, bp, size[bp]) && bp !in list
  {
    assert NotFree(list, size, bp, size[bp]);
    assert !InFree(list, size, bp);
    assert list[k] + size[list[k]] <= bp;
    forall i | 1 <= i < |list| ensures InFree(list, size, list[i]) {
      assert list[i] <= list[i] < list[i] + size[list[i]];
    }
    if k + 1 < |list| {
      assert InFree(list, size, list[k + 1]);
    }
  }

  /** The list, pointers and sizes free computes. */
  datatype Lists = Lists(list: seq<int>, ptr: map<int, int>, size: map<int, nat>)

  /** free's first half: bp swallows the successor of list[k] if they touch, and points past it. */
  function MergeNext(l: Lists, k: nat, bp: int): (r: Lists)
    requires k < |l.list| && bp in l.size && l.list[k] in l.ptr
    requires l.ptr[l.list[k]] in l.ptr && l.ptr[l.list[k]] in l.size
  {
    var next := l.ptr[l.list[k]];
    if bp + l.size[bp] == next then
      Lists(if k + 1 < |l.list| then l.list[..k + 1] + l.list[k + 2..] else l.list,
            l.ptr[bp := l.ptr[next]], l.size[bp := l.size[bp] + l.size[next]])
    else l.(ptr := l.ptr[bp := next])
  }

  /** free's second half: list[k] swallows bp if they touch, or else points to it. */
  function MergePrev(l: Lists, k: nat, bp: int): (r: Lists)
    requires k < |l.list| && bp in l.size && bp in l.ptr && l.list[k] in l.size
  {
    var p := l.list[k];
    if p + l.size[p] == bp then
      Lists(l.list, l.ptr[p := l.ptr[bp]], l.size[p := l.size[p] + l.size[bp]])
    else Lists(l.list[..k + 1] + [bp] + l.list[k + 1..], l.ptr[p := bp], l.size)
  }

  ghost predicate ListOk(base: int, l: Lists) {
    Chained(l.list, l.ptr) && Ordered(base, l.list, l.size)
  }

  /** After the first half the list is sound again once list[k] points where bp does, bp touches
      nothing after it, and the same units are free or in bp. */
  ghost predicate HalfMerged(base: int, l: Lists, k: nat, bp: int, r: Lists) {
    && bp in l.size && k < |l.list| && bp in r.ptr && bp in r.size && k < |r.list| && r.list[k] == l.list[k]
    && (forall i | 0 <= i < |l.list| :: l.list[i] in l.size)
    && ListOk(base, r.(ptr := r.ptr[l.list[k] := r.ptr[bp]]))
    && r.ptr[bp] == r.list[Next(k, |r.list|)]
    && r.size[bp] >= l.size[bp] && Between(r.list, r.size, k, bp, r.size[bp]) && bp !in r.list
    && (k + 1 < |r.list| ==> bp + r.size[bp] < r.list[k + 1])
    && (forall u: int :: InFree(r.list, r.size, u) || bp <= u < bp + r.size[bp] <==>
                         InFree(l.list, l.size, u) || bp <= u < bp + l.size[bp])
    && (forall a | a in l.size && a != bp :: a in r.size && r.size[a] == l.size[a])
  }

  lemma MergeNextReady(base: int, l: Lists, k: nat)
    requires ListOk(base, l) && k < |l.list|
    ensures l.list[k] in l.ptr && l.ptr[l.list[k]] == l.list[Next(k, |l.list|)]
    ensures l.ptr[l.list[k]] in l.ptr && l.ptr[l.list[k]] in l.size
  {
    assert LinkedAt(l.list, l.ptr, k) && LinkedAt(l.list, l.ptr, Next(k, |l.list|));
  }

  /** The successor leaves the list and bp takes over its units. */
  lemma TouchingList(base: int, l: Lists, k: nat, bp: int, n: nat, r: seq<int>)
    requires ListOk(base, l) && bp in l.size && k + 1 < |l.list| && bp !in l.list
    requires Removed(l.list, k + 1, r) && l.list[k + 1] in l.ptr
    ensures var q := l.ptr[l.list[k + 1]];
            Chained(r, l.ptr[l.list[k] := q][bp := q]) && Ordered(base, r, l.size[bp := n])
    ensures forall u: int :: InFree(l.list, l.size, u) <==>
                             InFree(r, l.size[bp := n], u) || Within(u, l.list[k + 1], l.size[l.list[k + 1]])
    ensures bp !in r && l.ptr[l.list[k + 1]] == r[Next(k, |r|)]
  {
    hide InFree;
    var q := l.ptr[l.list[k + 1]];
    OrderedIncreases(base, l.list, l.size);
    ChainRemove(l.list, l.ptr, k + 1, r);
    OrderRemove(base, l.list, l.size, k + 1, r);
    assert forall i | 0 <= i < |r| :: r[i] in l.list;
    SizeElsewhere(base, r, l.ptr[l.list[k] := q], l.size, bp, n, q);
    assert LinkedAt(r, l.ptr[l.list[k] := q], k);
  }

  /** Where the blocks round position k + 1 lie. */
  lemma TouchingPlaces(base: int, l: Lists, k: nat, bp: int, r: seq<int>)
    requires ListOk(base, l) && bp in l.size && k + 1 < |l.list| && Between(l.list, l.size, k, bp, l.size[bp])
             && bp !in l.list
    requires bp + l.size[bp] == l.list[k + 1] && r == l.list[..k + 1] + l.list[k + 2..]
    ensures Removed(l.list, k + 1, r) && l.list[k] != bp && k < |r| && r[k] == l.list[k]
    ensures var n := l.size[bp] + l.size[l.list[k + 1]];
            && (forall i | 0 <= i < |r| :: r[i] in l.size) && Between(r, l.size[bp := n], k, bp, n)
            && (k + 1 < |r| ==> bp + n < r[k + 1])
  {
    hide Chained, InFree;
    assert k + 1 < |r| ==> r[k + 1] == l.list[k + 2];
  }

  lemma MergeNextTouching(base: int, l: Lists, k: nat, bp: int, r: Lists)
    requires ListOk(base, l) && bp in l.size && k + 1 < |l.list| && Between(l.list, l.size, k, bp, l.size[bp])
             && bp !in l.list
    requires var next := l.list[k + 1];
             && bp + l.size[bp] == next && next in l.ptr
             && r == Lists(l.list[..k + 1] + l.list[k + 2..], l.ptr[bp := l.ptr[next]],
                           l.size[bp := l.size[bp] + l.size[next]])
    ensures HalfMerged(base, l, k, bp, r)
  {
    hide InFree, Chained, Removed, Between;
    var next := l.list[k + 1];
    TouchingPlaces(base, l, k, bp, r.list);
    TouchingList(base, l, k, bp, r.size[bp], r.list);
    assert r.ptr[l.list[k] := r.ptr[bp]] == l.ptr[l.list[k] := r.ptr[bp]][bp := r.ptr[bp]];
    assert forall u: int :: Within(u, bp, r.size[bp]) <==> Within(u, bp, l.size[bp]) || Within(u, next, l.size[next]);
  }

  lemma MergeNextApart(base: int, l: Lists, k: nat, bp: int, r: Lists)
    requires ListOk(base, l) && bp in l.size && k < |l.list| && Between(l.list, l.size, k, bp, l.size[bp])
             && bp !in l.list
    requires k + 1 < |l.list| ==> bp + l.size[bp] != l.list[k + 1]
    requires r == l.(ptr := l.ptr[bp := l.list[Next(k, |l.list|)]])
    ensures HalfMerged(base, l, k, bp, r)
  {
    var next := l.list[Next(k, |l.list|)];
    assert LinkedAt(l.list, l.ptr, k);
    SizeElsewhere(base, l.list, l.ptr, l.size, bp, l.size[bp], next);
    assert r.ptr[l.list[k] := next] == l.ptr[bp := next];
  }

  lemma MergeNextKeeps(base: int, l: Lists, k: nat, bp: int)
    requires ListOk(base, l) && bp in l.size && k < |l.list| && Between(l.list, l.size, k, bp, l.size[bp])
             && bp !in l.list
    ensures l.list[k] in l.ptr && l.ptr[l.list[k]] in l.ptr && l.ptr[l.list[k]] in l.size
    ensures HalfMerged(base, l, k, bp, MergeNext(l, k, bp))
  {
    hide HalfMerged;
    MergeNextReady(base, l, k);
    if k + 1 < |l.list| && bp + l.size[bp] == l.list[k + 1] {
      MergeNextTouching(base, l, k, bp, MergeNext(l, k, bp));
    } else {
      MergeNextApart(base, l, k, bp, MergeNext(l, k, bp));
    }
  }

  /** What is stored at an address outside the list does not matter to it. */
  lemma SizeElsewhere(base: int, list: seq<int>, ptr: map<int, int>, size: map<int, nat>, bp: int, n: nat, q: int)
    requires Chained(list, ptr) && Ordered(base, list, size) && bp !in list
    ensures Chained(list, ptr[bp := q]) && Ordered(base, list, size[bp := n])
    ensures forall u: int :: InFree(list, size[bp := n], u) <==> InFree(list, size, u)
  {
    var ptr' := ptr[bp := q];
    forall i | 0 <= i < |list| ensures LinkedAt(list, ptr', i) { assert LinkedAt(list, ptr, i); }
    forall u: int ensures InFree(list, size[bp := n], u) <==> InFree(list, size, u) {
      if i :| 0 <= i < |list| && list[i] <= u < list[i] + size[list[i]] {
        assert list[i] <= u < list[i] + size[bp := n][list[i]];
      }
    }
  }

  /** The free list after a block has been given back: sound, and covering exactly bp's units more. */
  ghost predicate Merged(base: int, l: Lists, k: nat, bp: int, r: Lists) {
    && bp in l.size && k < |l.list|
    && (forall i | 0 <= i < |l.list| :: l.list[i] in l.size)
    && ListOk(base, r)
    && (forall u: int :: InFree(r.list, r.size, u) <==> InFree(l.list, l.size, u) || bp <= u < bp + l.size[bp])
    && (forall a | a in l.size && a != bp && a != l.list[k] :: a in r.size && r.size[a] == l.size[a])
    && l.list[k] in r.list && bp in r.size && bp in r.ptr
    && (exists i | 0 <= i < |r.list| :: r.list[i] <= bp && bp + l.size[bp] <= r.list[i] + r.size[r.list[i]])
  }

  lemma MergePrevTouching(base: int, l: Lists, k: nat, bp: int, h: Lists, r: Lists)
    requires HalfMerged(base, l, k, bp, h)
    requires h.list[k] in h.size && h.list[k] + h.size[h.list[k]] == bp
    requires var p := h.list[k];
             r == Lists(h.list, h.ptr[p := h.ptr[bp]], h.size[p := h.size[p] + h.size[bp]])
    ensures Merged(base, l, k, bp, r)
  {
    var p := h.list[k];
    OrderGrow(base, h.list, h.size, k, h.size[bp]);
    assert r.list[k] <= bp && bp + l.size[bp] <= r.list[k] + r.size[r.list[k]];
    assert r.list[k] == l.list[k];
    forall u: int ensures InFree(r.list, r.size, u) <==> InFree(l.list, l.size, u) || bp <= u < bp + l.size[bp] {
      assert InFree(r.list, r.size, u) <==> InFree(h.list, h.size, u) || bp <= u < bp + h.size[bp];
    }
  }

  /** bp goes into the list after position k. */
  lemma ApartList(base: int, h: Lists, k: nat, bp: int, r: Lists)
    requires bp in h.size && k < |h.list| && bp in h.ptr && ListOk(base, h.(ptr := h.ptr[h.list[k] := h.ptr[bp]]))
    requires h.ptr[bp] == h.list[Next(k, |h.list|)] && Between(h.list, h.size, k, bp, h.size[bp]) && bp !in h.list
    requires (k + 1 < |h.list| ==> bp + h.size[bp] < h.list[k + 1]) && h.list[k] + h.size[h.list[k]] != bp
    requires Inserted(h.list, k, bp, r.list) && r.ptr == h.ptr[h.list[k] := bp] && r.size == h.size
    ensures ListOk(base, r) && Absorbed(h.list, h.size, r.list, r.size, bp, h.size[bp])
  {
    hide InFree;
    var ptr := h.ptr[h.list[k] := h.ptr[bp]];
    OrderedIncreases(base, h.list, h.size);
    ChainInsert(h.list, ptr, k, bp, r.list);
    assert ptr[bp := h.list[Next(k, |h.list|)]][h.list[k] := bp] == r.ptr;
    OrderInsert(base, h.list, h.size, k, bp, r.list);
    InsertCovers(h.list, h.size, k, bp, r.list);
  }

  /** bp in its place, and the parts of the first half that say so. */
  lemma ApartPlaces(base: int, l: Lists, k: nat, bp: int, h: Lists, r: Lists)
    requires HalfMerged(base, l, k, bp, h)
    requires h.list[k] in h.size && h.list[k] + h.size[h.list[k]] != bp
    requires r == Lists(h.list[..k + 1] + [bp] + h.list[k + 1..], h.ptr[h.list[k] := bp], h.size)
    ensures ListOk(base, r) && r.list[k + 1] == bp && r.list[k] == l.list[k]
    ensures (forall i | 0 <= i < |h.list| :: h.list[i] in h.size)
            && Absorbed(h.list, h.size, r.list, r.size, bp, h.size[bp])
  {
    hide InFree, Chained;
    assert Inserted(h.list, k, bp, r.list);
    ApartList(base, h, k, bp, r);
  }

  lemma MergePrevApart(base: int, l: Lists, k: nat, bp: int, h: Lists, r: Lists)
    requires HalfMerged(base, l, k, bp, h)
    requires h.list[k] in h.size && h.list[k] + h.size[h.list[k]] != bp
    requires r == Lists(h.list[..k + 1] + [bp] + h.list[k + 1..], h.ptr[h.list[k] := bp], h.size)
    ensures Merged(base, l, k, bp, r)
  {
    hide InFree, Between, ListOk;
    ApartPlaces(base, l, k, bp, h, r);
    assert r.list[k + 1] == bp;
  }

  lemma MergePrevKeeps(base: int, l: Lists, k: nat, bp: int, h: Lists)
    requires HalfMerged(base, l, k, bp, h)
    ensures h.list[k] in h.size && Merged(base, l, k, bp, MergePrev(h, k, bp))
  {
    hide Merged;
    if h.list[k] + h.size[h.list[k]] == bp {
      MergePrevTouching(base, l, k, bp, h, MergePrev(h, k, bp));
    } else {
      MergePrevApart(base, l, k, bp, h, MergePrev(h, k, bp));
    }
  }

  /** Giving back a live block keeps the heap invariant. */
  lemma FreeKeeps(base: int, l: Lists, live: map<int, nat>, arena: set<int>, k: nat, bp: int, r: Lists)
    requires Heaped(base, l.list, l.ptr, l.size, live, arena) && bp in live && bp !in l.list
    requires Merged(base, l, k, bp, r)
    ensures Heaped(base, r.list, r.ptr, r.size, live - {bp}, arena)
  {
    var live' := live - {bp};
    assert LiveApart(base, l.list, l.size, live);
    forall a | a in live' ensures a in r.size && r.size[a] == live[a] && NotFree(r.list, r.size, a, live[a]) {
      assert NotFree(l.list, l.size, a, live[a]);
      assert Apart(a, live[a], bp, live[bp]);
      assert a != l.list[k] by { LiveNotListed(base, l.list, l.size, live, a, k); }
    }
    forall u: int ensures u in arena <==> InFree(r.list, r.size, u) || InLive(live', u) {
      if a :| a in live && a <= u < a + live[a] {
        if a != bp { assert a in live' && a <= u < a + live'[a]; }
      }
      if bp <= u < bp + live[bp] { assert InLive(live, u); }
      if a :| a in live' && a <= u < a + live'[a] { assert a in live && a <= u < a + live[a]; }
    }
  }

  lemma HeapedFacts(base: int, l: Lists, live: map<int, nat>, arena: set<int>, bp: int)
    requires Heaped(base, l.list, l.ptr, l.size, live, arena) && bp in live
    ensures Chained(l.list, l.ptr) && Ordered(base, l.list, l.size) && bp !in l.list && bp > base
    ensures bp in l.size && l.size[bp] == live[bp]
  {
    forall i | 0 <= i < |l.list| ensures l.list[i] != bp { LiveNotListed(base, l.list, l.size, live, bp, i); }
  }

  /** free, from the place found to the final list. */
  lemma FreeSound(base: int, l: Lists, live: map<int, nat>, arena: set<int>, k: nat, bp: int)
    requires Heaped(base, l.list, l.ptr, l.size, live, arena) && bp in live && k < |l.list|
    requires l.list[k] < bp && (k + 1 < |l.list| ==> bp < l.list[k + 1])
    ensures bp in l.size && l.list[k] in l.ptr && l.list[k] in l.size && l.ptr[l.list[k]] in l.ptr
            && l.ptr[l.list[k]] in l.size
    ensures var h := MergeNext(l, k, bp);
            && k < |h.list| && h.list[k] == l.list[k] && l.list[k] in h.size && bp in h.ptr && bp in h.size
            && var r := MergePrev(h, k, bp);
            && Heaped(base, r.list, r.ptr, r.size, live - {bp}, arena) && l.list[k] in r.list
            && exists i | 0 <= i < |r.list| ::
                 r.list[i] in r.size && r.list[i] <= bp && bp + live[bp] <= r.list[i] + r.size[r.list[i]]
  {
    hide MergeNext, MergePrev;
    LiveBetween(base, l.list, l.size, live, k, bp);
    MergeNextKeeps(base, l, k, bp);
    var h := MergeNext(l, k, bp);
    MergePrevKeeps(base, l, k, bp, h);
    FreeKeeps(base, l, live, arena, k, bp, MergePrev(h, k, bp));
  }

  lemma LiveNotListed(base: int, list: seq<int>, size: map<int, nat>, live: map<int, nat>, a: int, k: nat)
    requires Ordered(base, list, size) && LiveApart(base, list, size, live) && a in live && k < |list|
    ensures a != list[k]
  {
    if k > 0 {
      assert NotFree(list, size, a, live[a]);
      assert list[k] <= list[k] < list[k] + size[list[k]];
      assert InFree(list, size, list[k]);
    }
  }

  // ---------------------------------------------------------------- malloc

  /** An exact fit leaves the list. */
  lemma TakeWhole(base: int, l: Lists, live: map<int, nat>, arena: set<int>, j: nat, r: Lists)
    requires Heaped(base, l.list, l.ptr, l.size, live, arena) && 0 < j < |l.list|
    requires l.list[j] in l.ptr
             && r == Lists(l.list[..j] + l.list[j + 1..], l.ptr[l.list[j - 1] := l.ptr[l.list[j]]], l.size)
    ensures l.list[j] !in live
    ensures Heaped(base, r.list, r.ptr, r.size, live[l.list[j] := l.size[l.list[j]]], arena)
    ensures l.list[j - 1] in r.list
  {
    var p, n := l.list[j], l.size[l.list[j]];
    OrderedIncreases(base, l.list, l.size);
    assert Removed(l.list, j, r.list);
    ChainRemove(l.list, l.ptr, j, r.list);
    OrderRemove(base, l.list, l.size, j, r.list);
    assert r.list[j - 1] == l.list[j - 1];
    if p in live { LiveNotListed(base, l.list, l.size, live, p, j); }
    NewLiveApart(base, l, live, j, p, n, r.list, r.size);
    LiveGrows(l, live, arena, p, n, r.list, r.size);
  }

  /** Units q .. q+n of free block j become a live block. */
  lemma NewLiveApart(base: int, l: Lists, live: map<int, nat>, j: nat, q: int, n: nat, list': seq<int>,
                     size': map<int, nat>)
    requires Ordered(base, l.list, l.size) && LiveApart(base, l.list, l.size, live) && 0 < j < |l.list| && n >= 1
             && q !in live
    requires l.list[j] <= q && q + n <= l.list[j] + l.size[l.list[j]]
    requires (forall i | 0 <= i < |list'| :: list'[i] in size') && q in size' && size'[q] == n
    requires forall a | a in live :: a in size' && size'[a] == l.size[a]
    requires forall u: int :: InFree(list', size', u) ==> InFree(l.list, l.size, u) && !(q <= u < q + n)
    ensures LiveApart(base, list', size', live[q := n])
  {
    var live' := live[q := n];
    forall a | a in live ensures NotFree(list', size', a, live[a]) && Apart(a, live[a], q, n) {
      assert NotFree(l.list, l.size, a, live[a]);
      BlockApart(l.list, l.size, a, live[a], j);
    }
    assert NotFree(list', size', q, n);
    assert l.list[0] + l.size[l.list[0]] < l.list[j];
  }

  /** Intervals that share no unit are apart. */
  lemma BlockApart(list: seq<int>, size: map<int, nat>, a: int, n: nat, j: nat)
    requires (forall i | 0 <= i < |list| :: list[i] in size) && j < |list| && n >= 1 && size[list[j]] >= 1
    requires NotFree(list, size, a, n)
    ensures Apart(a, n, list[j], size[list[j]])
  {
    assert list[j] <= list[j] < list[j] + size[list[j]];
    assert InFree(list, size, list[j]);
    assert !InFree(list, size, a);
  }

  /** Units that leave the free list for a new live block stay accounted for. */
  lemma LiveGrows(l: Lists, live: map<int, nat>, arena: set<int>, q: int, n: nat, list': seq<int>, size': map<int, nat>)
    requires (forall i | 0 <= i < |l.list| :: l.list[i] in l.size) && (forall i | 0 <= i < |list'| :: list'[i] in size')
    requires Partition(l.list, l.size, live, arena) && q !in live
    requires forall u: int :: InFree(l.list, l.size, u) <==> InFree(list', size', u) || q <= u < q + n
    ensures Partition(list', size', live[q := n], arena)
  {
    var live' := live[q := n];
    forall u: int ensures u in arena <==> InFree(list', size', u) || InLive(live', u) {
      if a :| a in live && a <= u < a + live[a] { assert a in live' && a <= u < a + live'[a]; }
      if a :| a in live' && a <= u < a + live'[a] { if a != q { assert a in live && a <= u < a + live[a]; } }
      if q <= u < q + n { assert q in live' && q <= u < q + live'[q]; }
    }
  }

  /** A larger block gives its tail. */
  lemma TakeTail(base: int, l: Lists, live: map<int, nat>, arena: set<int>, j: nat, n: nat)
    requires Heaped(base, l.list, l.ptr, l.size, live, arena) && 0 < j < |l.list| && 1 <= n < l.size[l.list[j]]
    ensures var p := l.list[j];
            var q := p + l.size[p] - n;
            q !in live && Heaped(base, l.list, l.ptr, l.size[p := l.size[p] - n][q := n], live[q := n], arena)
  {
    hide InFree, NotFree, Apart, LiveApart, Partition, InLive;
    var p := l.list[j];
    var q := p + l.size[p] - n;
    var size' := l.size[p := l.size[p] - n][q := n];
    TailSplit(base, l, j, n);
    FreeUnitNotLive(base, l.list, l.size, live, j, q);
    LiveHeaders(base, l.list, l.size, live, j);
    NewLiveApart(base, l, live, j, q, n, l.list, size');
    LiveGrows(l, live, arena, q, n, l.list, size');
  }

  lemma LiveHeaders(base: int, list: seq<int>, size: map<int, nat>, live: map<int, nat>, j: nat)
    requires Ordered(base, list, size) && LiveApart(base, list, size, live) && j < |list|
    ensures forall a | a in live :: a in size && a != list[j]
  {
    forall a | a in live ensures a != list[j] { LiveNotListed(base, list, size, live, a, j); }
  }

  lemma FreeUnitNotLive(base: int, list: seq<int>, size: map<int, nat>, live: map<int, nat>, j: nat, q: int)
    requires Ordered(base, list, size) && LiveApart(base, list, size, live) && j < |list|
             && list[j] <= q < list[j] + size[list[j]]
    ensures q !in live
  {
    assert InFree(list, size, q);
    forall a | a in live ensures a != q { assert NotFree(list, size, a, live[a]); }
  }

  /** Cutting n units off the end of block j, and putting a header on them. */
  lemma TailSplit(base: int, l: Lists, j: nat, n: nat)
    requires ListOk(base, l) && 0 < j < |l.list| && 1 <= n < l.size[l.list[j]]
    ensures var p := l.list[j];
            var q := p + l.size[p] - n;
            var size' := l.size[p := l.size[p] - n][q := n];
            && Ordered(base, l.list, size')
            && (forall u: int :: InFree(l.list, l.size, u) <==> InFree(l.list, size', u) || q <= u < q + n)
            && (forall u: int :: InFree(l.list, size', u) ==> !(q <= u < q + n))
  {
    hide InFree, Chained, Ordered;
    Sized(base, l.list, l.size);
    var p := l.list[j];
    var q := p + l.size[p] - n;
    var size1 := l.size[p := l.size[p] - n];
    ShrinkCovers(base, l.list, l.size, j, n);
    TailFresh(base, l.list, l.size, j, n);
    Sized(base, l.list, size1);
    SizeElsewhere(base, l.list, l.ptr, size1, q, n, q);
    Sized(base, l.list, size1[q := n]);
    var size' := size1[q := n];
    assert Ordered(base, l.list, size');
    forall u: int
      ensures InFree(l.list, l.size, u) <==> InFree(l.list, size', u) || q <= u < q + n
      ensures InFree(l.list, size', u) ==> !(q <= u < q + n)
    {
      assert InFree(l.list, size', u) <==> InFree(l.list, size1, u);
    }
  }

  lemma Sized(base: int, list: seq<int>, size: map<int, nat>)
    requires Ordered(base, list, size)
    ensures forall i | 0 <= i < |list| :: list[i] in size
  {
  }

  /** Inside a block no other block starts. */
  lemma TailFresh(base: int, list: seq<int>, size: map<int, nat>, j: nat, n: nat)
    requires Ordered(base, list, size) && 0 < j < |list| && 1 <= n < size[list[j]]
    ensures list[j] + size[list[j]] - n !in list
  {
    var p := list[j];
    forall i | 0 <= i < |list| ensures list[i] != p + size[p] - n {
      if i < j { assert list[i] + size[list[i]] < p; } else if i > j { assert p + size[p] < list[i]; }
    }
  }

  lemma ShrinkCovers(base: int, list: seq<int>, size: map<int, nat>, j: nat, n: nat)
    requires Ordered(base, list, size) && 0 < j < |list| && 1 <= n < size[list[j]]
    ensures var p := list[j];
            var size1 := size[p := size[p] - n];
            && Ordered(base, list, size1)
            && (forall u: int :: InFree(list, size, u) <==>
                                 InFree(list, size1, u) || p + size[p] - n <= u < p + size[p])
            && (forall u: int :: InFree(list, size1, u) ==> !(p + size[p] - n <= u < p + size[p]))
  {
    var p := list[j];
    var size1 := size[p := size[p] - n];
    forall i | 0 <= i < |list| && i != j ensures list[i] != p {
      if i < j { assert list[i] + size[list[i]] < p; } else { assert p + size[p] < list[i]; }
    }
    forall u: int
      ensures InFree(list, size, u) <==> InFree(list, size1, u) || p + size[p] - n <= u < p + size[p]
      ensures InFree(list, size1, u) ==> !(p + size[p] - n <= u < p + size[p])
    {
      if i :| 0 <= i < |list| && list[i] <= u < list[i] + size1[list[i]] {
        assert list[i] <= u < list[i] + size[list[i]];
        if i < j { assert list[i] + size[list[i]] < p; } else if i > j { assert p + size[p] < list[i]; }
      }
      if i :| 0 <= i < |list| && list[i] <= u < list[i] + size[list[i]] {
        if i != j { assert list[i] <= u < list[i] + size1[list[i]]; }
        else if u < p + size[p] - n { assert list[j] <= u < list[j] + size1[list[j]]; }
      }
      if p + size[p] - n <= u < p + size[p] { assert list[j] <= u < list[j] + size[list[j]]; }
    }
  }

  /** The n units from lo on. */
  ghost function Span(lo: int, n: nat): (r: set<int>)
    ensures forall u: int :: u in r <==> lo <= u < lo + n
  {
    set u | lo <= u < lo + n && Within(u, lo, n)
  }

  /** Positions strictly after f and before i, going round the cycle. */
  predicate Passed(f: nat, i: nat, x: nat) {
    if f < i then f < x < i else x > f || x < i
  }

  /** What morecore comes back with. */
  datatype Core = NoCore | Core(p: int) | Wild

  /** What malloc comes back with: the payload address, one unit past the header; 0; or nothing, because a header
      was stored outside the process. */
  datatype Answer = Block(ap: int) | Null | Astray

  class Allocator {
    const base: int                 // address of the static header `base`
    var freep: int                  // 0 before the first malloc
    var ptr: map<int, int>          // the ptr field of the header at an address
    var size: map<int, nat>         // the size field of the header at an address
    ghost var list: seq<int>        // the free list, from base round
    ghost var live: map<int, nat>   // blocks handed out and not yet freed
    ghost var arena: set<int>       // units obtained from sbrk
    var sz: nat                     // the size of the process, in bytes
    var has: nat                    // how many bytes of memory it has

    /** The process has the memory of `base` and of every unit obtained. */
    ghost predicate Backed()
      reads this`sz, this`has, this`arena
    {
      && has == sz && sz % UNIT == 0 && (base + 1) * UNIT <= sz < KERNBASE
      && forall u | u in arena :: (u + 1) * UNIT <= sz
    }

    ghost predicate Valid()
      reads this
    {
      && base > 0 && Backed()
      && (freep == 0 ==> live == map[] && arena == {})
      && (freep != 0 ==> Heaped(base, list, ptr, size, live, arena) && freep in list)
    }

    constructor (base: int, sz: nat)
      requires base > 0 && sz % UNIT == 0 && (base + 1) * UNIT <= sz < KERNBASE
      ensures Valid() && this.base == base && live == map[] && arena == {} && this.sz == sz
    {
      this.base, freep, ptr, size := base, 0, map[], map[];
      list, live, arena := [], map[], {};
      this.sz, has := sz, sz;
    }

    /** The program grows its memory by itself. */
    method Grow(n: nat)
      requires Valid() && n % UNIT == 0 && sz + n < KERNBASE
      modifies this`sz, this`has
      ensures Valid() && sz == old(sz) + n
    {
      sz, has := sz + n, has + n;
    }

    /** free's search: the free block after which bp belongs. Terminates from any starting point. */
    method FindPlace(bp: int) returns (p: int, ghost k: nat)
      requires freep != 0 && Chained(list, ptr) && Ordered(base, list, size) && freep in list && bp > base
      requires bp !in list
      ensures k < |list| && p == list[k] && p < bp && (k + 1 < |list| ==> bp < list[k + 1])
    {
      hide Ordered;
      OrderedIncreases(base, list, size);
      ghost var n := |list|;
      ghost var t := Place(bp);
      p := freep;
      k :| 0 <= k < n && list[k] == freep;
      assert LinkedAt(list, ptr, k);
      while !(bp > p && bp < ptr[p])
        invariant 0 <= k < n && p == list[k] && LinkedAt(list, ptr, k)
        decreases if k <= t then t - k else n - k + t
      {
        if p >= ptr[p] && (bp > p || bp < ptr[p]) {
          return;
        }
        p, k := ptr[p], Next(k, n);
        assert LinkedAt(list, ptr, k);
      }
    }

    /** The position of the last free block below bp. */
    lemma {:induction false} Place(bp: int) returns (t: nat)
      requires Ordered(base, list, size) && bp > base && bp !in list
      ensures t < |list| && list[t] < bp && (t + 1 < |list| ==> bp < list[t + 1])
    {
      t := 0;
      while t + 1 < |list| && list[t + 1] < bp
        invariant t < |list| && list[t] < bp
      {
        t := t + 1;
      }
    }

    /** free of the block whose header is at bp. */
    method Free(bp: int)
      requires Valid() && bp in live
      modifies this`freep, this`ptr, this`size, this`list, this`live
      ensures Valid() && freep != 0
      ensures live == old(live) - {bp} && arena == old(arena)
      ensures exists i | 0 <= i < |list| ::
                list[i] in size && list[i] <= bp && bp + old(live[bp]) <= list[i] + size[list[i]]
    {
      hide Heaped, Chained, Ordered, LiveApart, Partition, MergeNext, MergePrev;
      ghost var l := Lists(list, ptr, size);
      HeapedFacts(base, l, live, arena, bp);
      var p, k := FindPlace(bp);
      FreeSound(base, l, live, arena, k, bp);
      MergeFields(bp, p, k);
      live := live - {bp};
      freep := p;
    }

    /** The field updates of free. */
    method MergeFields(bp: int, p: int, ghost k: nat)
      requires k < |list| && p == list[k] && bp in size && p in ptr && p in size && ptr[p] in ptr && ptr[p] in size
      requires var h := MergeNext(Lists(list, ptr, size), k, bp);
               k < |h.list| && h.list[k] == p && p in h.size && bp in h.ptr && bp in h.size && bp != p
      modifies this`ptr, this`size, this`list
      ensures Lists(list, ptr, size) == MergePrev(MergeNext(old(Lists(list, ptr, size)), k, bp), k, bp)
    {
      ghost var h := MergeNext(Lists(list, ptr, size), k, bp);
      if bp + size[bp] == ptr[p] {
        size, ptr := size[bp := size[bp] + size[ptr[p]]], ptr[bp := ptr[ptr[p]]];
      } else {
        ptr := ptr[bp := ptr[p]];
      }
      list := h.list;
      if p + size[p] == bp {
        size, ptr := size[p := size[p] + size[bp]], ptr[p := ptr[bp]];
      } else {
        ptr := ptr[p := bp];
        list := list[..k + 1] + [bp] + list[k + 1..];
      }
    }

    /** morecore. The outcome is Wild when sbrk answered without giving memory: the header is then stored
        outside the process. */
    method Morecore(nunits: nat, room: bool) returns (r: Core)
      requires Valid() && freep != 0 && nunits <= 0x2000_0000
      modifies this`freep, this`ptr, this`size, this`list, this`live, this`arena, this`sz, this`has
      ensures var brk := Sbrk(old(sz), Need(nunits) % LIMIT32, room); sz == brk.sz && has == brk.has
      ensures Sbrk(old(sz), Need(nunits) % LIMIT32, room).answer.None? <==> r.NoCore?
      ensures Need(nunits) >= 0x8000_0000 <==> r.Wild? || (r.NoCore? && has != old(has))
      ensures !r.Core? ==> freep == old(freep) && list == old(list) && size == old(size) && ptr == old(ptr)
                           && live == old(live) && arena == old(arena)
      ensures r.NoCore? && Need(nunits) < 0x8000_0000 ==> Valid()
      ensures r.Core? ==> Valid() && freep != 0 && live == old(live) && r.p == freep
                          && arena == old(arena) + Span(old(sz) / UNIT, Max(nunits, 4096))
      ensures r.Core? ==> exists i | 0 <= i < |list| :: list[i] in size && size[list[i]] >= nunits
    {
      hide Sbrk, Heaped;
      SbrkAnswers(nunits, sz, room);
      var nu := nunits;
      if nu < 4096 { nu := 4096; }
      var brk := Sbrk(sz, nu * UNIT % LIMIT32, room);
      ghost var sz0 := sz;
      sz, has := brk.sz, brk.has;
      if brk.answer.None? { return NoCore; }
      var hp := brk.answer.value / UNIT;
      if (hp + 1) * UNIT > has { return Wild; }
      r := AddCore(hp, nu, sz0);
    }

    /** The new block enters as one that was handed out, and is freed. */
    method AddCore(hp: int, nu: nat, ghost sz0: nat) returns (r: Core)
      requires base > 0 && freep != 0 && Heaped(base, list, ptr, size, live, arena) && freep in list && nu >= 1
      requires sz0 == hp * UNIT && has == sz == sz0 + nu * UNIT < KERNBASE && (base + 1) * UNIT <= sz0
      requires forall u | u in arena :: (u + 1) * UNIT <= sz0
      modifies this`freep, this`ptr, this`size, this`list, this`live, this`arena
      ensures r.Core? && Valid() && freep != 0 && live == old(live) && r.p == freep
              && arena == old(arena) + Span(hp, nu)
      ensures exists i | 0 <= i < |list| :: list[i] in size && size[list[i]] >= nu
    {
      ghost var units := Span(hp, nu);
      Fresh(hp, nu, sz0);
      AddArena(base, Lists(list, ptr, size), live, arena, hp, nu, units);
      size := size[hp := nu];
      live, arena := live[hp := nu], arena + units;
      assert live - {hp} == old(live);
      Free(hp);
      r := Core(freep);
    }

    /** The units above the old size are new, and within the new size. */
    lemma Fresh(hp: int, nu: nat, sz0: nat)
      requires sz0 == hp * UNIT && sz == sz0 + nu * UNIT < KERNBASE && (base + 1) * UNIT <= sz0 && forall u
                 | u in arena :: (u + 1) * UNIT <= sz0
      ensures hp > base && Span(hp, nu) !! arena
      ensures forall u | u in arena + Span(hp, nu) :: (u + 1) * UNIT <= sz
    {
    }

    /** No block is larger than the process. */
    lemma BlockFits(i: nat)
      requires Valid() && freep != 0 && i < |list|
      ensures list[i] in size && size[list[i]] * UNIT <= sz
    {
      if size[list[i]] > 0 {
        var u := list[i] + size[list[i]] - 1;
        assert InFree(list, size, u) by { assert list[i] <= u < list[i] + size[list[i]]; }
        assert u in arena;
        OrderedIncreases(base, list, size);
      }
    }

    /** Cut nunits out of the fitting free block p. */
    method Take(prevp: int, p: int, nunits: nat, ghost j: nat) returns (q: int)
      requires Valid() && freep != 0 && nunits >= 1 && 0 < j < |list| && p == list[j] && prevp == list[j - 1]
      requires p in size && size[p] >= nunits
      modifies this`freep, this`ptr, this`size, this`list, this`live
      ensures Valid() && freep != 0 && arena == old(arena)
      ensures q !in old(live) && live == old(live)[q := nunits]
    {
      hide Heaped, Chained, Ordered, LiveApart, Partition;
      ghost var l := Lists(list, ptr, size);
      TakeReady(base, l, live, arena, j);
      q := p;
      if size[p] == nunits {
        ptr := ptr[prevp := ptr[p]];
        list := list[..j] + list[j + 1..];
        TakeWhole(base, l, live, arena, j, Lists(list, ptr, size));
      } else {
        TakeTail(base, l, live, arena, j, nunits);
        size := size[p := size[p] - nunits];
        q := p + size[p];
        size := size[q := nunits];
        assert prevp == list[j - 1];
      }
      live := live[q := nunits];
      freep := prevp;
    }

    /** malloc did its job: a new live block that holds the request, or 0 and nothing has changed. */
    ghost predicate Served(nbytes: nat, r: Answer, live0: map<int, nat>, arena0: set<int>, sz0: nat)
      requires nbytes < LIMIT32
      reads this
    {
      match r
      case Block(ap) =>
        && Valid() && ap - 1 !in live0 && live == live0[ap - 1 := Units(nbytes)] && (Units(nbytes) - 1) * UNIT >= nbytes
        && (arena == arena0 || arena == arena0 + Span(sz0 / UNIT, Max(Units(nbytes), 4096)))
      case Null => Valid() && live == live0 && arena == arena0 && sz == sz0
      case Astray => false
    }

    /** malloc, for every request. `room` tells whether allocuvm finds the pages; it is asked at most once. */
    method Malloc(nbytes: nat, room: bool) returns (r: Answer)
      requires Valid() && nbytes < LIMIT32
      modifies this`freep, this`ptr, this`size, this`list, this`live, this`arena, this`sz, this`has
      ensures nbytes <= MAXREQUEST ==> Served(nbytes, r, old(live), old(arena), old(sz))
      ensures nbytes > MAXREQUEST && Served(nbytes, r, old(live), old(arena), old(sz)) ==> r.Null?
      ensures r.Null? ==> Sbrk(old(sz), Need(Units(nbytes)) % LIMIT32, room).answer.None?
      ensures r.Astray? || (r.Null? && has != old(has)) <==> Need(Units(nbytes)) >= 0x8000_0000
      ensures r.Block? ==> Valid() && r.ap - 1 !in old(live) && live == old(live)[r.ap - 1 := Units(nbytes)]
    {
      RequestIff(nbytes);
      var nunits := Units(nbytes);
      if freep == 0 {
        freep, ptr, size := base, ptr[base := base], size[base := 0];
        list := [base];
        StartList(base, ptr, size);
      }
      r := Search(nunits, room);
    }

    /** malloc's search loop. */
    method Search(nunits: nat, room: bool) returns (r: Answer)
      requires Valid() && freep != 0 && 1 <= nunits <= 0x2000_0000
      modifies this`freep, this`ptr, this`size, this`list, this`live, this`arena, this`sz, this`has
      ensures r.Block? ==> Valid() && r.ap - 1 !in old(live) && live == old(live)[r.ap - 1 := nunits]
      ensures r.Block? ==> arena == old(arena) || arena == old(arena) + Span(old(sz) / UNIT, Max(nunits, 4096))
      ensures r.Null? ==> Sbrk(old(sz), Need(nunits) % LIMIT32, room).answer.None? && live == old(live)
                          && arena == old(arena)
      ensures r.Null? && Need(nunits) < 0x8000_0000 ==> Valid() && sz == old(sz)
      ensures r.Astray? || (r.Null? && has != old(has)) <==> Need(nunits) >= 0x8000_0000
    {
      hide Heaped, Span;
      ghost var f :| 0 <= f < |list| && list[f] == freep;
      ghost var asked, i := false, Next(f, |list|);
      At(f);
      At(i);
      var prevp := freep;
      var p := ptr[prevp];
      while true
        invariant Valid() && freep != 0 && live == old(live)
        invariant 0 <= f < |list| && list[f] == freep && 0 <= i < |list| && p == list[i] && p in size
        invariant i > 0 ==> prevp == list[i - 1]
        invariant !asked ==> arena == old(arena) && sz == old(sz) && has == old(has)
        invariant asked ==> arena == old(arena) + Span(old(sz) / UNIT, Max(nunits, 4096)) && Need(nunits) < 0x8000_0000
        invariant asked ==> exists w | 0 <= w < |list| :: Fits(list[w], nunits)
        invariant asked ==> forall x | 0 <= x < |list| && Passed(f, i, x) :: !Fits(list[x], nunits)
        decreases !asked, if i <= f then f - i else |list| - i + f
      {
        At(i);
        if size[p] >= nunits {
          BlockFits(i);
          var q := Take(prevp, p, nunits, i);
          return Block(q + 1);
        }
        if p == freep {
          OnlyAt(i, f);
          assert !asked;
          var core := Morecore(nunits, room);
          if core.NoCore? {
            return Null;
          }
          if core.Wild? {
            return Astray;
          }
          SbrkAnswers(nunits, old(sz), room);
          p, asked := core.p, true;
          f :| 0 <= f < |list| && list[f] == freep;
          i := f;
          At(i);
          ghost var w :| 0 <= w < |list| && list[w] in size && size[list[w]] >= nunits;
          assert Fits(list[w], nunits);
        }
        prevp, p, i := p, ptr[p], Next(i, |list|);
        At(i);
      }
    }

    /** The block at an address is large enough. */
    ghost predicate Fits(a: int, nunits: nat)
      reads this`size
    {
      a in size && size[a] >= nunits
    }

    /** What the invariant says of one block of the list. */
    lemma At(i: nat)
      requires Heaped(base, list, ptr, size, live, arena) && i < |list|
      ensures list[i] in size && list[i] in ptr && ptr[list[i]] == list[Next(i, |list|)]
              && (size[list[i]] > 0 ==> i > 0)
    {
      assert LinkedAt(list, ptr, i);
    }

    lemma OnlyAt(i: nat, f: nat)
      requires Heaped(base, list, ptr, size, live, arena) && i < |list| && f < |list| && list[i] == list[f]
      ensures i == f
    {
      OrderedIncreases(base, list, size);
    }
  }

  /** What sbrk can answer morecore. */
  lemma SbrkAnswers(nunits: nat, sz: nat, room: bool)
    requires nunits <= 0x2000_0000 && 0 < sz < KERNBASE
    ensures var need, b := Need(nunits), Sbrk(sz, Need(nunits) % LIMIT32, room);
            && (b.answer.Some? ==> b.answer.value == sz)
            && (need < 0x8000_0000 ==> Granted(sz, need, b) && (b.answer.Some? ==> b.sz < KERNBASE))
            && (need >= 0x8000_0000 ==> if b.answer.Some? then b.has <= sz else b.has != sz)
  {
    SbrkGrantsIff(nunits, sz, room);
  }

  lemma StartList(base: int, ptr: map<int, int>, size: map<int, nat>)
    requires base in ptr && ptr[base] == base && base in size && size[base] == 0
    ensures Heaped(base, [base], ptr, size, map[], {})
  {
    assert LinkedAt([base], ptr, 0);
  }

  lemma TakeReady(base: int, l: Lists, live: map<int, nat>, arena: set<int>, j: nat)
    requires Heaped(base, l.list, l.ptr, l.size, live, arena) && 0 < j < |l.list|
    ensures l.list[j] in l.ptr && l.list[j] in l.size && l.list[j - 1] in l.ptr && l.list[j - 1] >= base
  {
    assert LinkedAt(l.list, l.ptr, j) && LinkedAt(l.list, l.ptr, j - 1);
  }

  /** Fresh units are in no free block. */
  lemma FreshNotListed(base: int, l: Lists, live: map<int, nat>, arena: set<int>, hp: int, nu: nat)
    requires Ordered(base, l.list, l.size) && Partition(l.list, l.size, live, arena) && hp > base && nu >= 1
    requires forall u: int | hp <= u < hp + nu :: u !in arena
    ensures hp !in l.list && NotFree(l.list, l.size, hp, nu)
  {
    forall i | 0 <= i < |l.list| ensures l.list[i] != hp {
      if i > 0 {
        assert l.list[i] <= l.list[i] < l.list[i] + l.size[l.list[i]];
        assert InFree(l.list, l.size, l.list[i]);
      }
    }
  }

  /** Fresh units are in no live block. */
  lemma FreshNotLive(l: Lists, live: map<int, nat>, arena: set<int>, hp: int, nu: nat, a: int)
    requires (forall i | 0 <= i < |l.list| :: l.list[i] in l.size) && Partition(l.list, l.size, live, arena)
    requires nu >= 1 && a in live && live[a] >= 1
    requires forall u: int | hp <= u < hp + nu :: u !in arena
    ensures a != hp && Apart(a, live[a], hp, nu)
  {
    assert a <= a < a + live[a];
    assert InLive(live, a);
    assert a <= hp < a + live[a] ==> InLive(live, hp);
  }

  /** Fresh units enter as one live block. */
  lemma AddArena(base: int, l: Lists, live: map<int, nat>, arena: set<int>, hp: int, nu: nat, fresh_units: set<int>)
    requires Heaped(base, l.list, l.ptr, l.size, live, arena) && hp > base && nu >= 1
    requires forall u: int :: u in fresh_units <==> hp <= u < hp + nu
    requires fresh_units !! arena
    ensures hp !in live && Heaped(base, l.list, l.ptr, l.size[hp := nu], live[hp := nu], arena + fresh_units)
  {
    hide InFree, NotFree;
    assert forall u: int | hp <= u < hp + nu :: u !in arena
    by { assert forall u: int | hp <= u < hp + nu :: u in fresh_units; }
    FreshNotListed(base, l, live, arena, hp, nu);
    forall a | a in live ensures a != hp && Apart(a, live[a], hp, nu) {
      FreshNotLive(l, live, arena, hp, nu, a);
    }
    SizeElsewhere(base, l.list, l.ptr, l.size, hp, nu, hp);
    FreshLiveApart(base, l, live, hp, nu);
    forall u: int ensures InLive(live[hp := nu], u) <==>
                          InLive(live, u) || u in fresh_units { LiveWith(live, hp, nu, u); }
  }

  lemma LiveWith(live: map<int, nat>, hp: int, nu: nat, u: int)
    requires hp !in live
    ensures InLive(live[hp := nu], u) <==> InLive(live, u) || hp <= u < hp + nu
  {
    var live' := live[hp := nu];
    if a :| a in live && a <= u < a + live[a] { assert a in live' && a <= u < a + live'[a]; }
    if hp <= u < hp + nu { assert hp in live' && hp <= u < hp + live'[hp]; }
  }

  lemma FreshLiveApart(base: int, l: Lists, live: map<int, nat>, hp: int, nu: nat)
    requires Ordered(base, l.list, l.size) && LiveApart(base, l.list, l.size, live) && hp > base && nu >= 1
    requires NotFree(l.list, l.size, hp, nu)
    requires forall a | a in live :: a != hp && Apart(a, live[a], hp, nu)
    requires forall u: int :: InFree(l.list, l.size[hp := nu], u) <==> InFree(l.list, l.size, u)
    ensures LiveApart(base, l.list, l.size[hp := nu], live[hp := nu])
  {
    hide InFree;
    var size', live' := l.size[hp := nu], live[hp := nu];
    forall a | a in live' ensures NotFree(l.list, size', a, live'[a]) {
      assert NotFree(l.list, l.size, a, live'[a]);
      forall u | a <= u < a + live'[a] ensures !InFree(l.list, size', u) { assert !InFree(l.list, l.size, u); }
    }
  }

  // ---------------------------------------------------------------- conservation

  function FreeUnits(list: seq<int>, size: map<int, nat>): (n: nat)
    requires forall i | 0 <= i < |list| :: list[i] in size
  {
    if list == [] then 0 else FreeUnits(list[..|list| - 1], size) + size[list[|list| - 1]]
  }

  ghost function SomeKey(live: map<int, nat>): (a: int)
    requires live.Items != {}
    ensures a in live
  {
    var x :| x in live.Items; x.0
  }

  ghost function LiveUnits(live: map<int, nat>): (n: nat)
    decreases |live|
  {
    if live.Items == {} then 0 else live[SomeKey(live)] + LiveUnits(live - {SomeKey(live)})
  }

  lemma {:induction false} SpanCard(lo: int, n: nat)
    ensures |Span(lo, n)| == n
  {
    if n == 0 {
      assert Span(lo, n) == {};
    } else {
      SpanCard(lo, n - 1);
      assert Span(lo, n) == Span(lo, n - 1) + {lo + n - 1};
    }
  }

  /** A set that holds a span has that many more elements than the rest of it. */
  lemma SpanApart(s: set<int>, lo: int, n: nat)
    requires forall u | Within(u, lo, n) :: u in s
    ensures |s| == |s - Span(lo, n)| + n
  {
    SpanCard(lo, n);
    assert s == (s - Span(lo, n)) + Span(lo, n);
  }

  /** All but the last block. */
  lemma FreeFront(list: seq<int>, size: map<int, nat>, n: nat, u: int)
    requires forall i | 0 <= i < |list| :: list[i] in size
    requires forall i, j | 0 <= i < j < |list| :: list[i] + size[list[i]] < list[j]
    requires |list| == n + 1
    ensures InFree(list[..n], size, u) <==> InFree(list, size, u) && !Within(u, list[n], size[list[n]])
  {
    if i :| 0 <= i < n && list[..n][i] <= u < list[..n][i]
                          + size[list[..n][i]] { assert list[i] <= u < list[i] + size[list[i]]; }
    if i :| 0 <= i < n && list[i] <= u < list[i]
                          + size[list[i]] { assert list[..n][i] <= u < list[..n][i] + size[list[..n][i]]; }
  }

  lemma {:induction false} FreeCard(list: seq<int>, size: map<int, nat>, s: set<int>)
    requires forall i | 0 <= i < |list| :: list[i] in size
    requires forall i, j | 0 <= i < j < |list| :: list[i] + size[list[i]] < list[j]
    requires forall u: int :: u in s <==> InFree(list, size, u)
    ensures |s| == FreeUnits(list, size)
  {
    if list == [] {
      forall u: int ensures u !in s { assert !InFree(list, size, u); }
      assert s == {};
    } else {
      var n := |list| - 1;
      var front := s - Span(list[n], size[list[n]]);
      forall u: int ensures u in front <==> InFree(list[..n], size, u) { FreeFront(list, size, n, u); }
      forall u | Within(u, list[n], size[list[n]]) ensures u in s { assert list[n] <= u < list[n] + size[list[n]]; }
      hide InFree;
      SpanApart(s, list[n], size[list[n]]);
      FreeCard(list[..n], size, front);
    }
  }

  /** All live blocks but one. */
  lemma LiveRest(live: map<int, nat>, a: int, u: int)
    requires forall a, b | a in live && b in live && a != b :: Apart(a, live[a], b, live[b])
    requires a in live
    ensures InLive(live - {a}, u) <==> InLive(live, u) && !Within(u, a, live[a])
  {
    var live' := live - {a};
    if b :| b in live' && b <= u < b
                          + live'[b] { assert Apart(a, live[a], b, live[b]) && b in live && b <= u < b + live[b]; }
    if b :| b in live && b != a && b <= u < b + live[b] { assert b in live' && b <= u < b + live'[b]; }
  }

  lemma {:induction false} LiveCard(live: map<int, nat>, s: set<int>)
    requires forall a, b | a in live && b in live && a != b :: Apart(a, live[a], b, live[b])
    requires forall u: int :: u in s <==> InLive(live, u)
    ensures |s| == LiveUnits(live)
    decreases |live|
  {
    assert forall a | a in live :: (a, live[a]) in live.Items;
    if live.Items == {} {
      forall u: int ensures u !in s { assert !InLive(live, u); }
      assert s == {};
    } else {
      var a := SomeKey(live);
      var rest := s - Span(a, live[a]);
      forall u: int ensures u in rest <==> InLive(live - {a}, u) { LiveRest(live, a, u); }
      forall u | Within(u, a, live[a]) ensures u in s { assert a in live && a <= u < a + live[a]; }
      SpanApart(s, a, live[a]);
      LiveCard(live - {a}, rest);
    }
  }

  /** Nothing is lost and nothing is made up: free and live units add up to the units sbrk gave. */
  lemma Conserved(base: int, l: Lists, live: map<int, nat>, arena: set<int>)
    requires Heaped(base, l.list, l.ptr, l.size, live, arena)
    ensures forall i | 0 <= i < |l.list| :: l.list[i] in l.size
    ensures FreeUnits(l.list, l.size) + LiveUnits(live) == |arena|
  {
    var f := set u | u in arena && InFree(l.list, l.size, u);
    FreeCard(l.list, l.size, f);
    var g := arena - f;
    forall u: int ensures u in g <==> InLive(live, u) {
      if a :| a in live && a <= u < a + live[a] { assert NotFree(l.list, l.size, a, live[a]); }
    }
    LiveCard(live, g);
  }
}
