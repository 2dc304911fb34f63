/** fs.c's block allocator and file contents: balloc, bfree, bmap, itrunc, readi, writei. */
module FileSystem {
  import opened Common
  import opened Disk
  import opened Inode

  /** What a call that can fail or panic gives back. */
  datatype Result = Ret(value: int) | Panic

  /** The byte string `base` with src written over it at off <= |base|. */
  function Splice(base: seq<Byte>, off: nat, src: seq<Byte>): (r: seq<Byte>)
    requires off <= |base|
    ensures |r| == Max(|base|, off + |src|)
  {
    base[..off] + src + (if off + |src| < |base| then base[off + |src|..] else [])
  }

  /** How many blocks are free. */
  function FreeCount(bits: seq<bool>): (n: nat) {
    if bits == [] then 0 else FreeCount(bits[..|bits| - 1]) + (if bits[|bits| - 1] then 0 else 1)
  }

  lemma {:induction false} FreeCountTaken(bits: seq<bool>, b: nat)
    requires b < |bits| && !bits[b]
    ensures FreeCount(bits[b := true]) == FreeCount(bits) - 1
  {
    var n := |bits| - 1;
    if b < n {
      FreeCountTaken(bits[..n], b);
      assert bits[b := true][..n] == bits[..n][b := true];
    } else {
      assert bits[b := true][..n] == bits[..n];
    }
  }

  lemma {:induction false} FreeCountNone(bits: seq<bool>)
    requires forall b | 0 <= b < |bits| :: bits[b]
    ensures FreeCount(bits) == 0
  {
    if bits != [] { FreeCountNone(bits[..|bits| - 1]); }
  }

  /** How many blocks a write of n bytes at off touches. */
  function Touching(off: nat, n: nat): (k: nat)
    requires n > 0
  {
    (off + n - 1) / BSIZE - off / BSIZE + 1
  }

  /** What is on the volume, as read through the cache, and what has been logged. */
  datatype Volume = Volume(blocks: Device, bits: seq<bool>, dinodes: map<nat, Inode>, logged: set<nat>)

  /** Write-ahead logging: between two moments no block has changed without being passed to log_write. */
  ghost predicate Journaled(sb: Super, v: Volume, v': Volume) {
    && v.logged <= v'.logged && |v'.blocks| == |v.blocks| && |v'.bits| == |v.bits|
    && (forall b | 0 <= b < |v.blocks| && v'.blocks[b] != v.blocks[b] :: b in v'.logged)
    && (forall b | 0 <= b < |v.bits| && v'.bits[b] != v.bits[b] :: sb.BitBlock(b) in v'.logged)
    && (forall j {:trigger sb.InodeBlock(j)} {:trigger Entry(v'.dinodes, j)}
          | Entry(v'.dinodes, j) != Entry(v.dinodes, j) ::
          sb.InodeBlock(j) in v'.logged)
  }

  /** The inode in place j of the inode blocks, None if its type is 0. */
  function Entry(dinodes: map<nat, Inode>, j: nat): (r: Option<Inode>) {
    if j in dinodes then Some(dinodes[j]) else None
  }

  lemma JournaledChain(sb: Super, v0: Volume, v1: Volume, v2: Volume)
    requires Journaled(sb, v0, v1) && Journaled(sb, v1, v2)
    ensures Journaled(sb, v0, v2)
  {
    assert forall b | 0 <= b < |v0.bits| && v2.bits[b] != v0.bits[b] :: sb.BitBlock(b) in v2.logged by {
      forall b | 0 <= b < |v0.bits| && v2.bits[b] != v0.bits[b] ensures sb.BitBlock(b) in v2.logged {
        if v1.bits[b] != v0.bits[b] { assert sb.BitBlock(b) in v1.logged; }
      }
    }
    forall j: nat | Entry(v2.dinodes, j) != Entry(v0.dinodes, j) ensures sb.InodeBlock(j) in v2.logged {
      if Entry(v1.dinodes, j) != Entry(v0.dinodes, j) { assert sb.InodeBlock(j) in v1.logged; }
    }
  }

  lemma JournaledSame(sb: Super, v: Volume)
    ensures Journaled(sb, v, v)
  {
  }

  /** A block is changed and logged. */
  lemma JournaledBlock(sb: Super, v: Volume, b: nat, data: Block)
    requires b < |v.blocks|
    ensures Journaled(sb, v, v.(blocks := v.blocks[b := data], logged := v.logged + {b}))
  {
  }

  /** Between two moments only the named blocks and the bitmap blocks `maps` were logged. */
  ghost predicate LogsAtMost(sb: Super, before: set<nat>, after: set<nat>, named: set<nat>, maps: set<nat>) {
    && after <= before + named + maps
    && (forall x | x in maps :: sb.bmapstart <= x < sb.datastart)
  }

  ghost predicate Sound(m: Image) {
    forall j | j in m.inodes :: m.inodes[j].size <= MAXBYTES && Readable(m.inodes[j], m.blocks)
  }

  /** The files an image holds. */
  ghost function FilesOf(m: Image): (r: map<nat, seq<Byte>>)
    requires Sound(m)
  {
    map j | j in m.inodes :: Bytes(m.inodes[j], m.blocks, m.inodes[j].size)
  }

  lemma ValidSound(sb: Super, m: Image)
    requires Owned(sb, m) && forall j | j in m.inodes :: m.inodes[j].size <= MAXBYTES
    ensures Sound(m)
  {
    hide Addr, Word;
    forall j | j in m.inodes ensures Readable(m.inodes[j], m.blocks) { OwnedReadable(sb, m, j); }
  }

  /** All files but i are kept, and file i reads c. */
  lemma FilesUpdate(m: Image, m': Image, i: nat, c: seq<Byte>)
    requires Sound(m) && Sound(m') && i in m.inodes && m'.inodes.Keys == m.inodes.Keys
    requires Bytes(m'.inodes[i], m'.blocks, m'.inodes[i].size) == c
    requires forall j | j in m.inodes && j != i :: m'.inodes[j] == m.inodes[j]
    requires forall j | j in m.inodes && j != i ::
               SameBlocks(m.inodes[j], m.blocks, m.inodes[j], m'.blocks, m.inodes[j].size)
    ensures FilesOf(m') == FilesOf(m)[i := c]
  {
    hide Addr, Word, SameBlocks, Readable, Bytes;
    forall j | j in m.inodes && j != i
      ensures Bytes(m'.inodes[j], m'.blocks, m'.inodes[j].size) == Bytes(m.inodes[j], m.blocks, m.inodes[j].size)
    {
      SameBlocksSameBytes(m.inodes[j], m.blocks, m'.inodes[j], m'.blocks, m.inodes[j].size);
    }
  }

  /** The state when a write begins: the file's bytes, everything else, the inodes and the number of free blocks. */
  datatype Outset = Outset(base: seq<Byte>, img: Image, vol: Volume, inodes: map<nat, Inode>, left: nat)

  class FileSys {
    const sb: Super
    var blocks: Device              // block contents, as read through the cache
    var bits: seq<bool>             // the free map, one bit per block
    var inodes: map<nat, Inode>     // in-memory copies of the allocated inodes
    var dinodes: map<nat, Inode>    // the same inodes in the inode blocks
    ghost var owner: map<nat, Owner>
    ghost var logged: set<nat>      // blocks passed to log_write since begin_op

    /** No block is free. */
    predicate Full()
      reads this`bits
    {
      forall b | 0 <= b < |bits| :: bits[b]
    }

    ghost function Img(): (m: Image)
      reads this`blocks, this`bits, this`inodes, this`owner
    {
      Image(blocks, bits, inodes, owner)
    }

    /** The number of free blocks. */
    function Left(): (n: nat)
      reads this`bits
    {
      FreeCount(bits)
    }

    ghost function Now(): (v: Volume)
      reads this`blocks, this`bits, this`dinodes, this`logged
    {
      Volume(blocks, bits, dinodes, logged)
    }

    /** Invariant while inode i is being extended to byte ext; its in-memory copy may be ahead. */
    ghost predicate ValidBut(i: nat, ext: nat)
      reads this`blocks, this`bits, this`inodes, this`owner, this`dinodes
    {
      && Growing(sb, Img(), i, ext)
      && i in dinodes && dinodes[i := inodes[i]] == inodes
    }

    /** Blocks have one owner each, files have no holes, and the inode cache is written through. */
    ghost predicate Valid()
      reads this`blocks, this`bits, this`inodes, this`owner, this`dinodes
    {
      && Owned(sb, Img())
      && dinodes == inodes
      && (forall j | j in inodes :: inodes[j].size <= MAXBYTES && Mapped(inodes[j], blocks, inodes[j].size))
    }

    /** The contents of file j. */
    ghost function Contents(j: nat): (s: seq<Byte>)
      requires Valid() && j in inodes
      reads this`blocks, this`bits, this`inodes, this`owner, this`dinodes
      ensures |s| == inodes[j].size
    {
      OwnedReadable(sb, Img(), j);
      Bytes(inodes[j], blocks, inodes[j].size)
    }

    /** The abstract file system: inode number to byte string. */
    ghost function Files(): (r: map<nat, seq<Byte>>)
      requires Valid()
      reads this`blocks, this`bits, this`inodes, this`owner, this`dinodes
    {
      ValidSound(sb, Img());
      FilesOf(Img())
    }

    constructor (sb: Super, blocks: Device, bits: seq<bool>, inodes: map<nat, Inode>, ghost owner: map<nat, Owner>)
      requires Owned(sb, Image(blocks, bits, inodes, owner))
      requires forall j | j in inodes :: inodes[j].size <= MAXBYTES && Mapped(inodes[j], blocks, inodes[j].size)
      ensures Valid() && this.sb == sb && Img() == Image(blocks, bits, inodes, owner) && logged == {}
    {
      this.sb, this.blocks, this.bits, this.inodes, this.dinodes := sb, blocks, bits, inodes, inodes;
      this.owner, this.logged := owner, {};
    }

    /** balloc's search: the lowest clear bit. */
    method FindFree() returns (r: Option<nat>)
      requires |bits| == sb.size
      ensures r.None? <==> forall b | 0 <= b < sb.size :: bits[b]
      ensures r.Some? ==> r.value < sb.size && !bits[r.value] && forall b | 0 <= b < r.value :: bits[b]
    {
      var b := 0;
      while b < sb.size
        invariant 0 <= b
        invariant forall k | 0 <= k < b && k < sb.size :: bits[k]
      {
        var bi := 0;
        while bi < BPB && b + bi < sb.size
          invariant 0 <= bi <= BPB
          invariant forall k | 0 <= k < b + bi && k < sb.size :: bits[k]
        {
          if !bits[b + bi] {
            return Some(b + bi);
          }
          bi := bi + 1;
        }
        b := b + BPB;
      }
      return None;
    }

    /** balloc: mark the lowest free block used, zero it, log both changes; None is a panic. */
    method Balloc() returns (r: Option<nat>)
      requires |bits| == |blocks| == sb.size
      modifies this`bits, this`blocks, this`logged
      ensures r.None? <==> forall b | 0 <= b < sb.size :: old(bits[b])
      ensures r.None? ==> bits == old(bits) && blocks == old(blocks) && logged == old(logged)
      ensures r.Some? ==> r.value < sb.size && !old(bits[r.value]) && forall b | 0 <= b < r.value :: old(bits[b])
      ensures r.Some? ==> bits == old(bits)[r.value := true] && blocks == old(blocks)[r.value := ZERO_BLOCK]
      ensures r.Some? ==> logged == old(logged) + {sb.BitBlock(r.value), r.value}
      ensures if r.None? then old(Left()) == 0 else Left() == old(Left()) - 1
      ensures Journaled(sb, old(Now()), Now())
    {
      r := FindFree();
      if r.None? { FreeCountNone(bits); }
      if r.Some? {
        FreeCountTaken(bits, r.value);
        bits := bits[r.value := true];
        logged := logged + {sb.BitBlock(r.value)};
        blocks := blocks[r.value := ZERO_BLOCK];
        logged := logged + {r.value};
      }
    }

    /** bfree; false is the "freeing free block" panic. */
    method Bfree(b: nat) returns (ok: bool)
      requires b < sb.size == |bits|
      modifies this`bits, this`logged
      ensures ok == old(bits[b])
      ensures bits == if ok then old(bits)[b := false] else old(bits)
      ensures logged == if ok then old(logged) + {sb.BitBlock(b)} else old(logged)
      ensures Journaled(sb, old(Now()), Now())
    {
      if !bits[b] {
        return false;
      }
      bits := bits[b := false];
      logged := logged + {sb.BitBlock(b)};
      ok := true;
    }

    // -------------------------------------------------------------- bmap

    /** balloc for bmap: a zeroed block nobody owns, with the rest of the state undisturbed. */
    method AllocZeroed(i: nat, ghost ext: nat) returns (r: Option<nat>)
      requires ValidBut(i, ext)
      modifies this`bits, this`blocks, this`logged
      ensures r.None? ==> Full()
      ensures r.Some? ==>
                && 0 < sb.datastart <= r.value < sb.size == |blocks| && r.value !in owner
                && blocks[r.value] == ZERO_BLOCK
                && bits == old(bits)[r.value := true]
                && logged == old(logged) + {sb.BitBlock(r.value), r.value}
                && sb.bmapstart <= sb.BitBlock(r.value) < sb.datastart
                && Growing(sb, Img().(bits := old(bits)), i, ext)
                && Kept(old(Img()), Img().(bits := old(bits)), i, ext)
      ensures Journaled(sb, old(Now()), Now())
      ensures if r.None? then old(Left()) == 0 else Left() == old(Left()) - 1
    {
      r := Balloc();
      if r.Some? {
        ZeroFresh(sb, old(Img()), i, ext, r.value);
        assert Img().(bits := old(bits)) == old(Img()).(blocks := blocks);
      }
    }

    /** bmap's direct path, for the block at the end of the mapped part. */
    method NewDirect(i: nat, bn: nat, ghost ext: nat) returns (r: Option<nat>, ghost maps: set<nat>)
      requires ValidBut(i, ext) && bn < NDIRECT && bn * BSIZE == ext
      modifies this`bits, this`blocks, this`logged, this`inodes, this`owner
      ensures r.None? ==> Full()
      ensures r.Some? ==> ValidBut(i, ext + 1) && Kept(old(Img()), Img(), i, ext)
                          && Addr(inodes[i], blocks, bn) == r.value
      ensures r.Some? ==> r.value != 0 && inodes[i].addrs[NDIRECT] == old(inodes[i].addrs[NDIRECT])
      ensures r.Some? ==> LogsAtMost(sb, old(logged), logged, {r.value}, maps) && |maps| <= 1
      ensures Journaled(sb, old(Now()), Now())
      ensures if r.None? then old(Left()) == 0 else Left() == old(Left()) - 1
    {
      hide Growing, Kept, Owned, Mapped, Addr, Journaled;
      maps := {};
      r := AllocZeroed(i, ext);
      if r.None? { return; }
      var b := r.value;
      ghost var m := Img().(bits := old(bits));
      GrowingFacts(sb, m, i, ext);
      GrowDirect(sb, m, i, ext, bn, b);
      inodes := inodes[i := WithAddr(inodes[i], bn, b)];
      owner := owner[b := Data(i, bn)];
      maps := {sb.BitBlock(b)};
      assert Img() == LinkDirect(m, i, bn, b);
      KeptTransitive(old(Img()), m, Img(), i, ext);
    }

    /** bmap's first allocation on the indirect path: the indirect block itself. */
    method NewIndirect(i: nat, ghost ext: nat) returns (r: Option<nat>, ghost maps: set<nat>)
      requires ValidBut(i, ext) && ext == NDIRECT * BSIZE && inodes[i].addrs[NDIRECT] == 0
      modifies this`bits, this`blocks, this`logged, this`inodes, this`owner
      ensures r.None? ==> Full()
      ensures r.Some? ==> ValidBut(i, ext) && Kept(old(Img()), Img(), i, ext)
      ensures r.Some? ==> inodes[i].addrs[NDIRECT] == r.value != 0
      ensures r.Some? ==> LogsAtMost(sb, old(logged), logged, {r.value}, maps) && |maps| <= 1
      ensures Journaled(sb, old(Now()), Now())
      ensures if r.None? then old(Left()) == 0 else Left() == old(Left()) - 1
    {
      hide Growing, Kept, Owned, Mapped, Addr, Journaled;
      maps := {};
      r := AllocZeroed(i, ext);
      if r.None? { return; }
      var b := r.value;
      ghost var m := Img().(bits := old(bits));
      GrowingFacts(sb, m, i, ext);
      GrowIndirect(sb, m, i, ext, b);
      inodes := inodes[i := WithAddr(inodes[i], NDIRECT, b)];
      owner := owner[b := Indirect(i)];
      maps := {sb.BitBlock(b)};
      assert Img() == LinkIndirect(m, i, b);
      KeptTransitive(old(Img()), m, Img(), i, ext);
    }

    /** bmap's second allocation on the indirect path: the data block, entered in the indirect block. */
    method NewEntry(i: nat, bn: nat, ghost ext: nat) returns (r: Option<nat>, ghost maps: set<nat>)
      requires ValidBut(i, ext) && NDIRECT <= bn < MAXFILE && bn * BSIZE == ext && inodes[i].addrs[NDIRECT] != 0
      modifies this`bits, this`blocks, this`logged, this`owner
      ensures r.None? ==> Full()
      ensures r.Some? ==> ValidBut(i, ext + 1) && Kept(old(Img()), Img(), i, ext)
                          && Addr(inodes[i], blocks, bn) == r.value != 0
      ensures r.Some? ==> LogsAtMost(sb, old(logged), logged, {r.value, inodes[i].addrs[NDIRECT]}, maps) && |maps| <= 1
      ensures Journaled(sb, old(Now()), Now())
      ensures if r.None? then old(Left()) == 0 else Left() == old(Left()) - 1
    {
      hide Growing, Kept, Owned, Mapped, Addr, SetWord, Word, Journaled;
      maps := {};
      r := AllocZeroed(i, ext);
      if r.None? { return; }
      var b := r.value;
      ghost var m := Img().(bits := old(bits));
      GrowingFacts(sb, m, i, ext);
      GrowEntry(sb, m, i, ext, bn, b);
      var ind := inodes[i].addrs[NDIRECT];
      ghost var v1 := Now();
      JournaledBlock(sb, v1, ind, SetWord(blocks[ind], bn - NDIRECT, b));
      blocks := blocks[ind := SetWord(blocks[ind], bn - NDIRECT, b)];
      logged := logged + {ind};
      JournaledChain(sb, old(Now()), v1, Now());
      owner := owner[b := Data(i, bn)];
      maps := {sb.BitBlock(b)};
      assert Img() == LinkEntry(m, i, bn, b);
      KeptTransitive(old(Img()), m, Img(), i, ext);
    }

    /** The blocks bmap can log besides bitmap blocks. */
    function Named(ino: Inode, bn: nat, addr: nat): (r: set<nat>) {
      if bn < NDIRECT then {addr} else {addr, ino.addrs[NDIRECT]}
    }

    /** bmap, for a block that is mapped or next to be mapped; None is balloc's panic. */
    method Bmap(i: nat, bn: nat, ghost ext: nat) returns (r: Option<nat>, ghost maps: set<nat>)
      requires ValidBut(i, ext) && bn < MAXFILE && bn * BSIZE <= ext
      modifies this`bits, this`blocks, this`logged, this`inodes, this`owner
      ensures r.None? ==> Full()
      ensures r.Some? ==> ValidBut(i, Extent(ext, bn)) && Kept(old(Img()), Img(), i, ext)
      ensures r.Some? ==> Addr(inodes[i], blocks, bn) == r.value != 0
      ensures r.Some? ==> LogsAtMost(sb, old(logged), logged, Named(inodes[i], bn, r.value), maps)
      ensures r.Some? ==> |maps| <= Allocations(ext, bn)
      ensures r.Some? && !old(inodes[i].addrs[NDIRECT] == 0) ==>
                inodes[i].addrs[NDIRECT] == old(inodes[i].addrs[NDIRECT])
      ensures r.Some? && bn < NDIRECT ==> inodes[i].addrs[NDIRECT] == old(inodes[i].addrs[NDIRECT])
      ensures r.Some? && bn >= NDIRECT ==> inodes[i].addrs[NDIRECT] != 0
      ensures bn * BSIZE < ext ==> r.Some? && Img() == old(Img()) && logged == old(logged) && maps == {}
      ensures Journaled(sb, old(Now()), Now())
      ensures if r.None? then old(Left()) < Allocations(ext, bn) else old(Left()) <= Left() + Allocations(ext, bn)
    {
      hide Growing, Kept, Owned, Mapped, SetWord, Word, Journaled;
      GrowingFacts(sb, Img(), i, ext);
      JournaledSame(sb, Now());
      KeptSelf(i, ext);
      MappedAt(inodes[i], blocks, ext, bn);
      maps := {};
      if bn < NDIRECT {
        var addr := inodes[i].addrs[bn];
        if addr == 0 {
          r, maps := NewDirect(i, bn, ext);
          return;
        }
        return Some(addr), {};
      }
      if inodes[i].addrs[NDIRECT] == 0 {
        r, maps := NewIndirect(i, ext);
        if r.None? { return; }
        ghost var m1, maps1, v1 := Img(), maps, Now();
        GrowingFacts(sb, Img(), i, ext);
        r, maps := NewEntry(i, bn, ext);
        JournaledChain(sb, old(Now()), v1, Now());
        if r.None? { return; }
        KeptTransitive(old(Img()), m1, Img(), i, ext);
        maps := maps + maps1;
        return;
      }
      var addr := Word(blocks[inodes[i].addrs[NDIRECT]], bn - NDIRECT);
      if addr == 0 {
        r, maps := NewEntry(i, bn, ext);
        return;
      }
      return Some(addr), {};
    }

    // -------------------------------------------------------------- writei

    /** One iteration of writei's loop: map the block, move `piece` bytes of src into it, log it. */
    method WriteOne(i: nat, off: nat, src: seq<Byte>, done: nat, piece: nat, ghost ext: nat, ghost base: seq<Byte>,
                    ghost off0: nat)
      returns (r: Option<nat>, ghost maps: set<nat>)
      requires ValidBut(i, ext) && ext == Max(|base|, off) && off == off0 + done
      requires Spliced(inodes[i], blocks, base, off0, src, done)
      requires 0 < piece <= |src| - done && off % BSIZE + piece <= BSIZE && off + piece <= MAXBYTES
      requires |base| == inodes[i].size
      modifies this`bits, this`blocks, this`logged, this`inodes, this`owner
      ensures r.None? ==> Full()
      ensures r.Some? ==> ValidBut(i, Max(ext, off + piece)) && Kept(old(Img()), Img(), i, 0)
      ensures r.Some? ==> Spliced(inodes[i], blocks, base, off0, src, done + piece)
      ensures r.Some? ==> LogsAtMost(sb, old(logged), logged, Named(inodes[i], off / BSIZE, r.value), maps)
      ensures r.Some? ==> |maps| <= Allocations(ext, off / BSIZE)
      ensures r.Some? && !old(inodes[i].addrs[NDIRECT] == 0) ==>
                inodes[i].addrs[NDIRECT] == old(inodes[i].addrs[NDIRECT])
      ensures r.Some? && off / BSIZE < NDIRECT ==> inodes[i].addrs[NDIRECT] == old(inodes[i].addrs[NDIRECT])
      ensures r.Some? && off / BSIZE >= NDIRECT ==> inodes[i].addrs[NDIRECT] != 0
      ensures off < |base| ==> r.Some? && inodes == old(inodes) && logged == old(logged) + {r.value}
      ensures r.Some? ==> i in inodes && inodes[i].size == old(inodes[i].size)
      ensures Journaled(sb, old(Now()), Now())
      ensures if r.None? then old(Left()) < Allocations(ext, off / BSIZE)
              else old(Left()) <= Left() + Allocations(ext, off / BSIZE)
    {
      hide Growing, Owned, Mapped, Addr, Spliced, Kept, Journaled, Readable, LogsAtMost, Named;
      var bn, o := off / BSIZE, off % BSIZE;
      ghost var m0 := Img();
      r, maps := Bmap(i, bn, ext);
      if r.None? { return; }
      KeptSize(m0, Img(), i, ext);
      ghost var m1, ext1, v1 := Img(), Extent(ext, bn), Now();
      var a := r.value;
      GrowingFacts(sb, m1, i, ext1);
      MoveBytes(i, ext1, off, a, src, done, piece, base, off0, m0, ext);
      JournaledChain(sb, old(Now()), v1, Now());
      LogPiece(old(logged), v1.logged, inodes[i], bn, a, maps);
    }

    /** The block written is one of those bmap names. */
    lemma LogPiece(logged0: set<nat>, logged1: set<nat>, ino: Inode, bn: nat, a: nat, maps: set<nat>)
      requires LogsAtMost(sb, logged0, logged1, Named(ino, bn, a), maps) && logged == logged1 + {a}
      ensures LogsAtMost(sb, logged0, logged, Named(ino, bn, a), maps)
    {
    }

    /** memmove into the mapped block and log_write. */
    method MoveBytes(i: nat, ghost ext1: nat, off: nat, a: nat, src: seq<Byte>, done: nat, piece: nat,
                     ghost base: seq<Byte>, ghost off0: nat, ghost m0: Image, ghost ext: nat)
      requires ValidBut(i, ext1) && Readable(inodes[i], blocks) && ext1 == Extent(ext, off / BSIZE)
      requires ext == Max(|base|, off) && off == off0 + done && |base| == inodes[i].size
      requires 0 < piece <= |src| - done && off % BSIZE + piece <= BSIZE && off + piece <= MAXBYTES
      requires Addr(inodes[i], blocks, off / BSIZE) == a != 0 && a < |blocks|
      requires i in m0.inodes && Spliced(m0.inodes[i], m0.blocks, base, off0, src, done) && Kept(m0, Img(), i, ext)
      modifies this`blocks, this`logged
      ensures ValidBut(i, Max(ext, off + piece)) && Kept(m0, Img(), i, 0)
      ensures Spliced(inodes[i], blocks, base, off0, src, done + piece)
      ensures logged == old(logged) + {a}
      ensures Journaled(sb, old(Now()), Now())
    {
      hide Growing, Owned, Addr, Spliced, Kept, Journaled;
      ghost var m1 := Img();
      JournaledBlock(sb, Now(), a, Patched(blocks[a], off % BSIZE, src[done..done + piece]));
      PieceMoved(sb, m0, m1, i, ext, off, a, src, done, piece, base, off0);
      blocks := blocks[a := Patched(blocks[a], off % BSIZE, src[done..done + piece])];
      logged := logged + {a};
      assert Img() == m1.(blocks := blocks);
    }

    /** The loop of writei. `data` are the data blocks written, `maps` the bitmap blocks logged. */
    method WriteLoop(i: nat, src: seq<Byte>, off0: nat)
      returns (ok: bool, ghost data: set<nat>, ghost maps: set<nat>)
      requires Valid() && i in inodes && off0 <= inodes[i].size && off0 + |src| <= MAXBYTES && |src| > 0
      modifies this`bits, this`blocks, this`logged, this`inodes, this`owner
      ensures !ok ==> Full() && off0 + |src| > old(inodes[i].size)
      ensures ok ==> i in inodes && inodes[i].size == old(inodes[i].size)
      ensures ok ==> ValidBut(i, Max(inodes[i].size, off0 + |src|)) && Kept(old(Img()), Img(), i, 0)
                     && dinodes == old(dinodes)
      ensures ok ==> Spliced(inodes[i], blocks, old(Contents(i)), off0, src, |src|)
      ensures ok ==> LogsAtMost(sb, old(logged), logged, data + Touched(inodes[i], off0, Touching(off0, |src|)), maps)
      ensures ok && off0 + |src| <= inodes[i].size ==> inodes == old(inodes) && logged <= old(logged) + data
      ensures ok ==> |data| <= Touching(off0, |src|) && |maps| <= MapBound(off0, Touching(off0, |src|))
      ensures Journaled(sb, old(Now()), Now())
      ensures if ok then old(Left()) <= Left() + MapBound(off0, Touching(off0, |src|))
              else old(Left()) < MapBound(off0, Touching(off0, |src|))
    {
      hide Growing, Kept, Owned, Mapped, Addr, Spliced, Position, MapBound, Touched, LogsAtMost, Journaled;
      JournaledSame(sb, Now());
      ghost var at := Outset(Contents(i), Img(), Now(), inodes, Left());
      StartWrite(i, src, off0);
      var done := 0;
      ghost var blks := 0;
      data, maps := {}, {};
      PositionStart(off0, |src|);
      LogNothing(inodes[i], off0);
      while done < |src|
        invariant 0 <= done <= |src| && PartDone(i, src, off0, at, done, blks, data, maps)
      {
        var piece;
        ok, piece, data, maps := WritePart(i, src, off0, at, done, blks, data, maps);
        if !ok { return; }
        done, blks := done + piece, blks + 1;
      }
      PositionEnd(off0, done, blks);
      ok := true;
    }

    /** After blks turns of the loop, which have written done bytes. */
    ghost predicate PartDone(i: nat, src: seq<Byte>, off0: nat, at: Outset, done: nat, blks: nat, data: set<nat>,
                             maps: set<nat>)
      reads this
    {
      && i in inodes && |at.base| == inodes[i].size && dinodes == at.vol.dinodes
      && ValidBut(i, Max(|at.base|, off0 + done)) && Kept(at.img, Img(), i, 0)
      && Spliced(inodes[i], blocks, at.base, off0, src, done)
      && (off0 + done <= |at.base| ==> inodes == at.inodes && logged <= at.vol.logged + data)
      && Position(off0, done, blks, |src|)
      && (off0 / BSIZE + blks > NDIRECT && blks > 0 ==> inodes[i].addrs[NDIRECT] != 0)
      && LogsAtMost(sb, at.vol.logged, logged, data + Touched(inodes[i], off0, blks), maps)
      && |data| <= blks && |maps| <= MapBound(off0, blks)
      && Journaled(sb, at.vol, Now())
      && at.left <= Left() + MapBound(off0, blks)
    }

    /** One turn of the loop. */
    method WritePart(i: nat, src: seq<Byte>, off0: nat, ghost at: Outset, done: nat, ghost blks: nat,
                     ghost data: set<nat>, ghost maps: set<nat>)
      returns (ok: bool, piece: nat, ghost data': set<nat>, ghost maps': set<nat>)
      requires done < |src| && off0 + |src| <= MAXBYTES && off0 <= |at.base|
               && PartDone(i, src, off0, at, done, blks, data, maps)
      modifies this`bits, this`blocks, this`logged, this`inodes, this`owner
      ensures 0 < piece && done + piece <= |src|
      ensures ok ==> PartDone(i, src, off0, at, done + piece, blks + 1, data', maps')
      ensures !ok ==> Full() && off0 + |src| > |at.base|
      ensures !ok ==> Journaled(sb, at.vol, Now()) && at.left < MapBound(off0, Touching(off0, |src|))
    {
      hide Growing, Kept, Owned, Mapped, Addr, Spliced, Position, MapBound, Allocations, Touched, Named, LogsAtMost,
        Journaled;
      hide Touching, FileSys.Full, FreeCount, Readable, SameBlocks;
      data', maps' := data, maps;
      var off := off0 + done;
      MapBoundTotal(off0, done, blks, |src|);
      piece := Min(|src| - done, BSIZE - off % BSIZE);
      Advance(off0, done, blks, |src|);
      MapBoundStep(off0, done, blks, |src|, |at.base|);
      ghost var m1, ino1, v1 := Img(), inodes[i], Now();
      var r, ms := WriteOne(i, off, src, done, piece, Max(|at.base|, off), at.base, off0);
      JournaledChain(sb, at.vol, v1, Now());
      if r.None? { return false, piece, data, maps; }
      KeptTransitive(at.img, m1, Img(), i, 0);
      LogMore(at.vol.logged, v1.logged, ino1, off0, blks, r.value, data, maps, ms, i);
      data', maps' := data + {r.value}, maps + ms;
      ok := true;
    }

    /** The indirect block, once the loop has reached it. */
    function Touched(ino: Inode, off0: nat, blks: nat): (r: set<nat>) {
      if blks > 0 && off0 / BSIZE + blks > NDIRECT then {ino.addrs[NDIRECT]} else {}
    }

    lemma LogNothing(ino: Inode, off0: nat)
      ensures LogsAtMost(sb, logged, logged, {} + Touched(ino, off0, 0), {})
      ensures MapBound(off0, 0) == 0
    {
    }

    /** What one more iteration adds to the blocks logged. */
    lemma LogMore(logged0: set<nat>, logged1: set<nat>, ino1: Inode, off0: nat, blks: nat, a: nat,
                  data: set<nat>, maps: set<nat>, ms: set<nat>, i: nat)
      requires i in inodes
      requires LogsAtMost(sb, logged0, logged1, data + Touched(ino1, off0, blks), maps)
      requires LogsAtMost(sb, logged1, logged, Named(inodes[i], off0 / BSIZE + blks, a), ms)
      requires off0 / BSIZE + blks > NDIRECT && blks > 0 ==> inodes[i].addrs[NDIRECT] == ino1.addrs[NDIRECT]
      ensures LogsAtMost(sb, logged0, logged, data + {a} + Touched(inodes[i], off0, blks + 1), maps + ms)
    {
    }

    lemma StartWrite(i: nat, src: seq<Byte>, off0: nat)
      requires Valid() && i in inodes && off0 <= inodes[i].size
      ensures ValidBut(i, inodes[i].size) && Kept(Img(), Img(), i, 0)
      ensures Spliced(inodes[i], blocks, Contents(i), off0, src, 0)
    {
      hide Addr;
      OwnedReadable(sb, Img(), i);
      KeptReflexive(sb, Img(), i, 0);
      assert dinodes[i := inodes[i]] == inodes;
    }

    /** iupdate. */
    method Iupdate(i: nat)
      requires i in inodes && i in dinodes
      modifies this`dinodes, this`logged
      ensures dinodes == old(dinodes)[i := inodes[i]]
      ensures logged == old(logged) + {sb.InodeBlock(i)}
      ensures Journaled(sb, old(Now()), Now())
    {
      dinodes := dinodes[i := inodes[i]];
      logged := logged + {sb.InodeBlock(i)};
    }

    /** writei on a file or directory; Ret(-1) is its error return, Panic is balloc out of blocks. */
    method Writei(i: nat, src: seq<Byte>, off: nat) returns (r: Result, ghost extra: set<nat>)
      requires Valid() && i in inodes && off < LIMIT32 && |src| < LIMIT32
      modifies this`bits, this`blocks, this`logged, this`inodes, this`dinodes, this`owner
      ensures r == Ret(-1) <==> off > old(inodes[i].size) || off + |src| >= LIMIT32 || off + |src| > MAXBYTES
      ensures r == Ret(-1) ==> Img() == old(Img()) && dinodes == old(dinodes) && logged == old(logged)
      ensures r == Ret(-1) ==> Valid() && Contents(i) == old(Contents(i)) && Files() == old(Files())
      ensures r.Panic? ==> Full()
      ensures r.Ret? && r != Ret(-1) ==>
                && r == Ret(|src|) && Valid() && inodes.Keys == old(inodes.Keys)
                && Contents(i) == Splice(old(Contents(i)), off, src)
                && Files() == old(Files())[i := Splice(old(Contents(i)), off, src)]
                && (forall j | j in inodes && j != i :: inodes[j] == old(inodes[j]))
                && inodes[i].kind == old(inodes[i].kind) && inodes[i].nlink == old(inodes[i].nlink)
      ensures r.Ret? ==> logged <= old(logged) + extra + {sb.InodeBlock(i)}
      ensures r.Ret? && off + |src| <= old(inodes[i].size) ==> inodes == old(inodes) && logged <= old(logged) + extra
      ensures r.Ret? ==> |extra| <= Cost(off, |src|, old(inodes[i].size), MapBlocks(sb))
      ensures Journaled(sb, old(Now()), Now())
      ensures r.Panic? ==> |src| > 0 && off + |src| > old(inodes[i].size)
                           && old(Left()) < MapBound(off, Touching(off, |src|))
      ensures r.Ret? && |src| > 0 ==> old(Left()) <= Left() + MapBound(off, Touching(off, |src|))
    {
      hide Mapped, Addr, Bytes, Journaled;
      JournaledSame(sb, Now());
      if off > inodes[i].size || off + |src| >= LIMIT32 {
        return Ret(-1), {};
      }
      if off + |src| > MAXBYTES {
        return Ret(-1), {};
      }
      if |src| == 0 {
        assert Contents(i) == Splice(Contents(i), off, src);
        FilesSelf(i);
        return Ret(0), {};
      }
      var ok;
      ok, extra := WriteInside(i, src, off);
      return if ok then Ret(|src|) else Panic, extra;
    }

    /** writei past its range checks, with something to write. */
    method WriteInside(i: nat, src: seq<Byte>, off: nat) returns (ok: bool, ghost extra: set<nat>)
      requires Valid() && i in inodes && off <= inodes[i].size && off + |src| <= MAXBYTES && |src| > 0
      modifies this`bits, this`blocks, this`logged, this`inodes, this`dinodes, this`owner
      ensures !ok ==> Full() && off + |src| > old(inodes[i].size)
      ensures ok ==>
                && Valid() && inodes.Keys == old(inodes.Keys)
                && Contents(i) == Splice(old(Contents(i)), off, src)
                && Files() == old(Files())[i := Splice(old(Contents(i)), off, src)]
                && (forall j | j in inodes && j != i :: inodes[j] == old(inodes[j]))
                && inodes[i].kind == old(inodes[i].kind) && inodes[i].nlink == old(inodes[i].nlink)
      ensures ok ==> logged <= old(logged) + extra + {sb.InodeBlock(i)}
      ensures ok && off + |src| <= old(inodes[i].size) ==> inodes == old(inodes) && logged <= old(logged) + extra
      ensures ok ==> |extra| <= Cost(off, |src|, old(inodes[i].size), MapBlocks(sb))
      ensures Journaled(sb, old(Now()), Now())
      ensures if ok then old(Left()) <= Left() + MapBound(off, Touching(off, |src|))
              else old(Left()) < MapBound(off, Touching(off, |src|))
    {
      hide Growing, Owned, Mapped, Addr, Spliced, Bytes, SameBlocks, FilesOf, Sound, Readable, Journaled;
      hide Cost, MapBound, Splice, FileSys.Full, FreeCount;
      ghost var base, m0 := Contents(i), Img();
      StartWrite(i, src, off);
      GrowingFacts(sb, Img(), i, inodes[i].size);
      ghost var data, maps;
      ok, data, maps := WriteLoop(i, src, off);
      extra := {};
      if !ok { return; }
      ghost var touched := Touched(inodes[i], off, Touching(off, |src|));
      CountLogged(sb, off, |src|, inodes[i].size, data, touched, maps);
      extra := if off + |src| <= inodes[i].size then data else data + touched + maps;
      ghost var m1, v1 := Img(), Now();
      if off + |src| > inodes[i].size {
        inodes := inodes[i := inodes[i].(size := off + |src|)];
        Iupdate(i);
        JournaledChain(sb, old(Now()), v1, Now());
        FinishGrown(m0, m1, i, off, src, base);
      } else {
        FinishSame(m0, i, off, src, base);
      }
      ValidSound(sb, m0);
      ValidSound(sb, Img());
      FilesUpdate(m0, Img(), i, Splice(base, off, src));
    }

    lemma FilesAre()
      requires Valid()
      ensures Sound(Img()) && Files() == FilesOf(Img())
    {
      hide Owned, Mapped, Addr;
      ValidSound(sb, Img());
    }

    lemma FilesSelf(i: nat)
      requires Valid() && i in inodes
      ensures Files() == Files()[i := Contents(i)]
    {
      hide Bytes, Owned, Mapped;
    }

    /** The spliced bytes are the whole file once the new size is stored. */
    lemma FinishGrown(m0: Image, m1: Image, i: nat, off: nat, src: seq<Byte>, base: seq<Byte>)
      requires i in m1.inodes && off + |src| > |base| == m1.inodes[i].size
      requires Growing(sb, m1, i, off + |src|) && Kept(m0, m1, i, 0)
               && Spliced(m1.inodes[i], m1.blocks, base, off, src, |src|)
      requires Img() == m1.(inodes := m1.inodes[i := m1.inodes[i].(size := off + |src|)]) && dinodes == inodes
      ensures Valid() && Contents(i) == Splice(base, off, src)
      ensures forall j | j in inodes && j != i :: SameBlocks(m0.inodes[j], m0.blocks, inodes[j], blocks, inodes[j].size)
    {
      hide Word, Addr, ByteAt, Spliced, Growing, Owned, Mapped, OwnsItsBlocks, SameBlocks, Readable;
      StoreSize(sb, m1, i, off + |src|);
      SplicedSize(m1.inodes[i], m1.inodes[i].(size := off + |src|), m1.blocks, base, off, src);
      SplicedBytes(inodes[i], blocks, base, off, src);
    }

    lemma FinishSame(m0: Image, i: nat, off: nat, src: seq<Byte>, base: seq<Byte>)
      requires i in inodes && off + |src| <= |base| == inodes[i].size && dinodes == inodes
      requires ValidBut(i, inodes[i].size) && Kept(m0, Img(), i, 0) && Spliced(inodes[i], blocks, base, off, src, |src|)
      ensures Valid() && Contents(i) == Splice(base, off, src)
      ensures forall j | j in inodes && j != i :: SameBlocks(m0.inodes[j], m0.blocks, inodes[j], blocks, inodes[j].size)
    {
      hide Word, Addr, ByteAt, Spliced;
      SplicedBytes(inodes[i], blocks, base, off, src);
    }

    // -------------------------------------------------------------- readi

    /** readi on a file or directory; None is its error return. Reading allocates nothing. */
    method Readi(i: nat, off0: nat, n0: nat) returns (r: Option<seq<Byte>>)
      requires Valid() && i in inodes && off0 < LIMIT32 && n0 < LIMIT32
      modifies this`bits, this`blocks, this`logged, this`inodes, this`owner
      ensures Img() == old(Img()) && logged == old(logged) && Valid()
      ensures Contents(i) == old(Contents(i)) && Files() == old(Files())
      ensures r.None? <==> off0 > inodes[i].size || off0 + n0 >= LIMIT32
      ensures r.Some? ==> r.value == Contents(i)[off0..Min(off0 + n0, inodes[i].size)]
    {
      hide FileSys.Valid, FileSys.Contents, FileSys.Files;
      if off0 > inodes[i].size || off0 + n0 >= LIMIT32 {
        return None;
      }
      FilesAre();
      var n := n0;
      if off0 + n0 > inodes[i].size {
        n := inodes[i].size - off0;
      }
      var dst := ReadLoop(i, off0, n);
      FilesAre();
      r := Some(dst);
    }

    method ReadLoop(i: nat, off0: nat, n: nat) returns (dst: seq<Byte>)
      requires Valid() && i in inodes && off0 + n <= inodes[i].size
      modifies this`bits, this`blocks, this`logged, this`inodes, this`owner
      ensures Img() == old(Img()) && logged == old(logged) && Valid()
      ensures Contents(i) == old(Contents(i))
      ensures dst == Contents(i)[off0..off0 + n]
    {
      hide FileSys.Valid, FileSys.Contents;
      ghost var m0, data := Img(), Contents(i);
      dst := [];
      var tot := 0;
      while tot < n
        invariant 0 <= tot <= n && off0 + n <= |data|
        invariant Img() == m0 && logged == old(logged)
        invariant Valid() && Contents(i) == data
        invariant dst == data[off0..off0 + tot]
      {
        var off := off0 + tot;
        var m := Min(n - tot, BSIZE - off % BSIZE);
        var piece := ReadOne(i, off, m);
        assert data[off0..off0 + tot] + data[off..off + m] == data[off0..off0 + tot + m];
        dst := dst + piece;
        tot := tot + m;
      }
    }

    /** One iteration of readi's loop. */
    method ReadOne(i: nat, off: nat, m: nat) returns (piece: seq<Byte>)
      requires Valid() && i in inodes && 0 < m && off + m <= inodes[i].size && off % BSIZE + m <= BSIZE
      modifies this`bits, this`blocks, this`logged, this`inodes, this`owner
      ensures Img() == old(Img()) && logged == old(logged)
      ensures Valid() && Contents(i) == old(Contents(i))
      ensures piece == old(Contents(i))[off..off + m]
    {
      ghost var ext := inodes[i].size;
      StartWrite(i, [], off);
      hide Growing, Owned, Mapped, Addr, Kept, Bytes;
      GrowingFacts(sb, Img(), i, ext);
      BytesInBlock(inodes[i], blocks, ext, off, m);
      var a, _ := Bmap(i, off / BSIZE, ext);
      piece := blocks[a.value][off % BSIZE..off % BSIZE + m];
    }

    // -------------------------------------------------------------- itrunc

    /** itrunc: give back every block of file i. The "freeing free block" panic is unreachable. */
    method Itrunc(i: nat) returns (ok: bool)
      requires Valid() && i in inodes
      modifies this`bits, this`logged, this`inodes, this`dinodes, this`owner
      ensures ok && Valid()
      ensures inodes == old(inodes)[i := old(inodes[i]).(size := 0, addrs := seq(NDIRECT + 1, _ => 0))]
      ensures forall b | 0 <= b < sb.size ::
                bits[b] <==> old(bits[b]) && !(!old(owner)[b].Meta? && old(owner)[b].inum == i)
      ensures Files() == old(Files())[i := []]
      ensures logged == old(logged) + {sb.InodeBlock(i)} + MapsOf(sb, old(owner), i)
      ensures Journaled(sb, old(Now()), Now())
    {
      hide Owned, Mapped, FreedUpTo, Released, OwnersWithout, Journaled, FilesOf, Sound, MapsOf;
      ghost var m := Img();
      OwnedFacts(sb, m);
      FreeAll(i, m);
      inodes := inodes[i := inodes[i].(size := 0)];
      ghost var v1 := Now();
      Iupdate(i);
      JournaledChain(sb, old(Now()), v1, Now());
      owner := OwnersWithout(owner, i);
      Emptied(sb, m, i, Img());
      ReleasedFacts(m, i, bits);
      EmptiedFiles(sb, m, Img(), i);
      ok := true;
    }

    /** Both loops and the indirect block itself. */
    method FreeAll(i: nat, ghost m: Image)
      requires Owned(sb, m) && i in m.inodes && m == Img() && dinodes == m.inodes
      modifies this`bits, this`logged, this`inodes
      ensures inodes == m.inodes[i := m.inodes[i].(addrs := seq(NDIRECT + 1, _ => 0))]
      ensures |bits| == sb.size && Released(m, i, bits)
      ensures logged == old(logged) + MapsOf(sb, m.owner, i)
      ensures Journaled(sb, old(Now()), Now())
    {
      hide Owned, Word, FreedUpTo, Released, Journaled, Addr, MapsOf, MapsBelow;
      OwnedFacts(sb, m);
      MapsAll(sb, m, i);
      FreeDirect(i, m);
      ghost var v1 := Now();
      var ind := inodes[i].addrs[NDIRECT];
      if ind != 0 {
        OwnedReadable(sb, m, i);
        FreeEntries(i, m);
        assert MapsBelow(sb, m.owner, i, NDIRECT) <= MapsBelow(sb, m.owner, i, MAXFILE) by { MapsGrow(sb, m.owner, i); }
        JournaledChain(sb, old(Now()), v1, Now());
        v1 := Now();
        ReleasedWithIndirect(sb, m, i, bits);
        var freed := Bfree(ind);
        JournaledChain(sb, old(Now()), v1, Now());
        assert freed;
        inodes := inodes[i := WithAddr(inodes[i], NDIRECT, 0)];
      } else {
        ReleasedWithoutIndirect(sb, m, i, bits);
      }
      assert inodes[i].addrs == seq(NDIRECT + 1, _ => 0);
    }

    /** itrunc's loop over the direct blocks. */
    method FreeDirect(i: nat, ghost m: Image)
      requires Owned(sb, m) && i in m.inodes && m == Img() && dinodes == m.inodes
      modifies this`bits, this`logged, this`inodes
      ensures i in inodes && inodes == m.inodes[i := inodes[i]] && inodes[i] == m.inodes[i].(addrs := inodes[i].addrs)
      ensures forall x | 0 <= x <= NDIRECT :: inodes[i].addrs[x] == if x < NDIRECT then 0 else m.inodes[i].addrs[x]
      ensures |bits| == sb.size && FreedUpTo(m, i, NDIRECT, bits)
      ensures logged == old(logged) + MapsBelow(sb, m.owner, i, NDIRECT)
      ensures Journaled(sb, old(Now()), Now())
    {
      hide Growing, Owned, Mapped, Kept, Word, FreedUpTo, Journaled, MapsBelow;
      OwnedReadable(sb, m, i);
      OwnedFacts(sb, m);
      FreedNone(sb, m, i);
      JournaledSame(sb, Now());
      MapsNone(sb, m.owner, i);
      for k := 0 to NDIRECT
        invariant i in inodes && inodes == m.inodes[i := inodes[i]]
                  && inodes[i] == m.inodes[i].(addrs := inodes[i].addrs)
        invariant forall x | 0 <= x <= NDIRECT :: inodes[i].addrs[x] == if x < k then 0 else m.inodes[i].addrs[x]
        invariant |bits| == sb.size && FreedUpTo(m, i, k, bits) && Journaled(sb, old(Now()), Now())
        invariant logged == old(logged) + MapsBelow(sb, m.owner, i, k)
      {
        FreeStep(sb, m, i, k, bits);
        MapsStep(sb, m, i, k);
        if inodes[i].addrs[k] != 0 {
          ghost var v1 := Now();
          var freed := Bfree(inodes[i].addrs[k]);
          JournaledChain(sb, old(Now()), v1, Now());
          assert freed;
          inodes := inodes[i := WithAddr(inodes[i], k, 0)];
        }
      }
    }

    /** itrunc's loop over the indirect block. */
    method FreeEntries(i: nat, ghost m: Image)
      requires Owned(sb, m) && i in m.inodes && blocks == m.blocks && |bits| == sb.size
      requires i in inodes && inodes[i].addrs[NDIRECT] == m.inodes[i].addrs[NDIRECT] != 0
      requires m.inodes[i].addrs[NDIRECT] < |blocks|
      requires FreedUpTo(m, i, NDIRECT, bits) && MapsBelow(sb, m.owner, i, NDIRECT) <= logged
      modifies this`bits, this`logged
      ensures |bits| == sb.size && FreedUpTo(m, i, MAXFILE, bits)
      ensures logged == old(logged) + MapsBelow(sb, m.owner, i, MAXFILE)
      ensures Journaled(sb, old(Now()), Now())
    {
      hide Owned, Word, FreedUpTo, Journaled, MapsBelow;
      OwnedReadable(sb, m, i);
      OwnedFacts(sb, m);
      JournaledSame(sb, Now());
      var a := blocks[inodes[i].addrs[NDIRECT]];
      for j := 0 to NINDIRECT
        invariant |bits| == sb.size && FreedUpTo(m, i, NDIRECT + j, bits) && Journaled(sb, old(Now()), Now())
        invariant logged == old(logged) + MapsBelow(sb, m.owner, i, NDIRECT + j)
      {
        FreeStep(sb, m, i, NDIRECT + j, bits);
        MapsStep(sb, m, i, NDIRECT + j);
        if Word(a, j) != 0 {
          ghost var v1 := Now();
          var freed := Bfree(Word(a, j));
          JournaledChain(sb, old(Now()), v1, Now());
          assert freed;
        }
      }
    }

    // -------------------------------------------------------------- ialloc and iput

    /** ialloc: the lowest free inode, with a type and nothing else; None is its panic. */
    method Ialloc(ninodes: nat, kind: nat) returns (r: Option<nat>)
      requires Valid()
      modifies this`logged, this`inodes, this`dinodes
      ensures Valid()
      ensures r.None? <==> forall j | 1 <= j < ninodes :: j in old(inodes)
      ensures r.None? ==> Img() == old(Img()) && logged == old(logged)
      ensures r.Some? ==>
                && 1 <= r.value < ninodes && r.value !in old(inodes)
                && (forall j | 1 <= j < r.value :: j in old(inodes))
                && inodes == old(inodes)[r.value := Inode(kind, 0, 0, seq(NDIRECT + 1, _ => 0))]
                && Files() == old(Files())[r.value := []]
                && logged == old(logged) + {sb.InodeBlock(r.value)}
      ensures Journaled(sb, old(Now()), Now())
    {
      hide Owned, Mapped, FilesOf, Sound, Addr, Journaled;
      JournaledSame(sb, Now());
      var inum := 1;
      while inum < ninodes && inum in dinodes
        invariant 1 <= inum && forall j | 1 <= j < inum :: j in inodes
      {
        inum := inum + 1;
      }
      if inum >= ninodes {
        return None;
      }
      NewInode(sb, Img(), inum, kind, 0);
      JournaledNew(sb, Now(), inum, Inode(kind, 0, 0, seq(NDIRECT + 1, _ => 0)));
      inodes := inodes[inum := Inode(kind, 0, 0, seq(NDIRECT + 1, _ => 0))];
      dinodes := dinodes[inum := inodes[inum]];
      logged := logged + {sb.InodeBlock(inum)};
      FilesWith(sb, old(Img()), Img(), inum);
      r := Some(inum);
    }

    /** A change of nlink and the iupdate that follows it. */
    method SetLinks(i: nat, nlink: int)
      requires Valid() && i in inodes
      modifies this`logged, this`inodes, this`dinodes
      ensures Valid() && inodes == old(inodes)[i := old(inodes[i]).(nlink := nlink)] && Files() == old(Files())
      ensures logged == old(logged) + {sb.InodeBlock(i)}
      ensures Journaled(sb, old(Now()), Now())
    {
      hide Mapped, Owned, FilesOf, Sound, Addr;
      LinksKeep(sb, Img(), i, nlink);
      inodes := inodes[i := inodes[i].(nlink := nlink)];
      Iupdate(i);
    }

    /** The freeing half of iput: itrunc, type 0, iupdate. Besides the inode's block it logs exactly the bitmap
        blocks of the file's blocks. */
    method Ifree(i: nat)
      requires Valid() && i in inodes
      modifies this`bits, this`logged, this`inodes, this`dinodes, this`owner
      ensures Valid() && inodes == old(inodes) - {i} && Files() == old(Files()) - {i}
      ensures logged == old(logged) + {sb.InodeBlock(i)} + MapsOf(sb, old(owner), i)
      ensures Journaled(sb, old(Now()), Now())
    {
      hide Mapped, Owned, FilesOf, Sound, Addr, MapsOf, Journaled;
      var ok := Itrunc(i);
      ghost var m, v1 := Img(), Now();
      DropInode(sb, m, i);
      JournaledDrop(sb, v1, i);
      inodes, dinodes := inodes - {i}, dinodes - {i};
      logged := logged + {sb.InodeBlock(i)};
      JournaledChain(sb, old(Now()), v1, Now());
      FilesWithout(sb, m, Img(), i);
    }

    // -------------------------------------------------------------- filewrite

    /** filewrite on an inode, from file offset off: chunks of ((MAXOPBLOCKS-1-1-2)/2)*512 bytes, each
        in its own log operation. `worst` is the largest number of blocks one operation logged. */
    method FileWrite(i: nat, src: seq<Byte>, off: nat) returns (r: Result, newoff: nat, ghost worst: nat)
      requires Valid() && i in inodes && off < LIMIT32 && |src| < 0x8000_0000
      modifies this`bits, this`blocks, this`logged, this`inodes, this`dinodes, this`owner
      ensures worst <= 6 + Min(4, MapBlocks(sb))
      ensures r.Panic? ==> Full()
      ensures r.Ret? ==> Valid() && off <= newoff <= off + |src|
      ensures r == Ret(|src|) || r == Ret(-1) || r.Panic?
      ensures r == Ret(|src|) <==> r.Ret? && newoff == off + |src|
      ensures r.Ret? ==> i in inodes && Files() == old(Files())[i := Contents(i)]
      ensures r.Ret? ==> Written(old(Contents(i)), off, src, newoff - off, Contents(i))
      ensures r == Ret(-1) ==> newoff > inodes[i].size || newoff + Min(1536, off + |src| - newoff) > MAXBYTES
    {
      hide FileSys.Valid, FileSys.Contents, FileSys.Files, Written, Splice;
      FilesSelf(i);
      var max := 1536;
      var done := 0;
      newoff, worst := off, 0;
      ghost var base, files0 := Contents(i), Files();
      WrittenNone(base, off, src);
      while done < |src|
        invariant 0 <= done <= |src| && newoff == off + done && newoff < LIMIT32
        invariant Valid() && i in inodes && Files() == files0[i := Contents(i)]
        invariant Written(base, off, src, done, Contents(i))
        invariant worst <= 6 + Min(4, MapBlocks(sb))
      {
        var n1 := Min(|src| - done, max);
        var res, count := FileChunk(i, src, done, n1, newoff, off, base);
        worst := Max(worst, count);
        if res.Panic? {
          return Panic, newoff, worst;
        }
        if res == Ret(-1) {
          return Ret(-1), newoff, worst;
        }
        newoff, done := newoff + n1, done + n1;
      }
      r := Ret(|src|);
    }

    /** One begin_op ... end_op of filewrite; `count` blocks were logged. */
    method FileChunk(i: nat, src: seq<Byte>, done: nat, n1: nat, at: nat, ghost off: nat, ghost base: seq<Byte>)
      returns (res: Result, ghost count: nat)
      requires Valid() && i in inodes && at == off + done < LIMIT32 && 0 < n1 <= 1536 && done + n1 <= |src|
      requires Written(base, off, src, done, Contents(i))
      modifies this`bits, this`blocks, this`logged, this`inodes, this`dinodes, this`owner
      ensures count <= 6 + Min(4, MapBlocks(sb))
      ensures res == Ret(-1) || res == Ret(n1) || res.Panic?
      ensures res.Panic? ==> Full()
      ensures res.Ret? ==> Valid() && i in inodes && Files() == old(Files())[i := Contents(i)]
      ensures res == Ret(-1) ==> at > inodes[i].size || at + n1 > MAXBYTES
      ensures res == Ret(-1) ==> Contents(i) == old(Contents(i))
      ensures res == Ret(n1) ==> at + n1 < LIMIT32 && Written(base, off, src, done + n1, Contents(i))
      ensures Journaled(sb, old(Now()).(logged := {}), Now())
    {
      hide FileSys.Valid, Written, Splice, FileSys.Contents, FileSys.Files, Journaled;
      FilesSelf(i);
      ghost var before := Contents(i);
      logged, count := {}, 0;
      ghost var extra;
      res, extra := Writei(i, src[done..done + n1], at);
      if res.Panic? { return; }
      ChunkCost(at, n1, old(inodes[i].size), MapBlocks(sb));
      CardUnion(extra, {sb.InodeBlock(i)});
      CardSubset(logged, extra + {sb.InodeBlock(i)});
      count := |logged|;
      if res != Ret(-1) {
        WrittenMore(base, off, src, done, n1, before, Contents(i));
      }
    }

    lemma KeptSize(m0: Image, m1: Image, i: nat, ext: nat)
      requires Kept(m0, m1, i, ext)
      ensures i in m0.inodes && i in m1.inodes && m1.inodes[i].size == m0.inodes[i].size
    {
    }

    lemma KeptSelf(i: nat, ext: nat)
      requires ValidBut(i, ext)
      ensures Kept(Img(), Img(), i, ext)
    {
      KeptReflexive(sb, Img(), i, ext);
    }
  }

  lemma MappedAt(ino: Inode, blocks: Device, ext: nat, bn: nat)
    requires Mapped(ino, blocks, ext) && bn < MAXFILE
    ensures Addr(ino, blocks, bn) != 0 <==> bn * BSIZE < ext
    ensures bn >= NDIRECT && ino.addrs[NDIRECT] == 0 && bn * BSIZE <= ext ==> bn == NDIRECT && ext == NDIRECT * BSIZE
  {
    hide Word;
  }

  /** The extent that is mapped once file block bn is. */
  function Extent(ext: nat, bn: nat): (r: nat) {
    if bn * BSIZE < ext then ext else bn * BSIZE + 1
  }

  /** A piece of src has been moved into the mapped block of byte off. */
  lemma PieceMoved(sb: Super, m0: Image, m1: Image, i: nat, ext: nat, off: nat, a: nat, src: seq<Byte>, done: nat,
                   piece: nat,
                   base: seq<Byte>, off0: nat)
    requires Growing(sb, m1, i, Extent(ext, off / BSIZE)) && Readable(m1.inodes[i], m1.blocks)
    requires ext == Max(|base|, off) && off == off0 + done && |base| == m1.inodes[i].size
    requires 0 < piece <= |src| - done && off % BSIZE + piece <= BSIZE && off + piece <= MAXBYTES
    requires Addr(m1.inodes[i], m1.blocks, off / BSIZE) == a != 0 && a < |m1.blocks|
    requires i in m0.inodes && Spliced(m0.inodes[i], m0.blocks, base, off0, src, done) && Kept(m0, m1, i, ext)
    ensures var m2 := m1.(blocks := m1.blocks[a := Patched(m1.blocks[a], off % BSIZE, src[done..done + piece])]);
            && Growing(sb, m2, i, Max(ext, off + piece)) && Kept(m0, m2, i, 0)
            && Spliced(m2.inodes[i], m2.blocks, base, off0, src, done + piece)
  {
    hide Growing, Owned, Addr, Spliced;
    var ext1, ino := Extent(ext, off / BSIZE), m1.inodes[i];
    var data := Patched(m1.blocks[a], off % BSIZE, src[done..done + piece]);
    var m2 := m1.(blocks := m1.blocks[a := data]);
    SplicedKept(m0.inodes[i], m0.blocks, ino, m1.blocks, base, off0, src, done, ext);
    KeptWeaken(m0, m1, i, ext, 0);
    OverwriteData(sb, m1, i, ext1, off / BSIZE, data);
    KeptTransitive(m0, m1, m2, i, 0);
    GrowingFacts(sb, m1, i, ext1);
    GrowingFacts(sb, m2, i, ext1);
    SplicedStep(ino, m1.blocks, m2.blocks, base, off0, src, done, piece, ext);
    RoundFacts(ext, off, piece);
    GrowingRound(sb, m2, i, ext1, Max(ext, off + piece));
  }

  /** Writing up to `piece` bytes at off, inside one block, maps no more than the block itself. */
  lemma RoundFacts(ext: nat, off: nat, piece: nat)
    requires 0 < piece && off % BSIZE + piece <= BSIZE && off <= ext
    ensures var bn := off / BSIZE;
            var e1 := if bn * BSIZE < ext then ext else bn * BSIZE + 1;
            (e1 + BSIZE - 1) / BSIZE == (Max(ext, off + piece) + BSIZE - 1) / BSIZE
  {
  }

  /** After blks iterations over done of n bytes from off0: all but possibly the last ended at a block boundary. */
  predicate Position(off0: nat, done: nat, blks: nat, n: nat) {
    && (done == 0 <==> blks == 0)
    && (blks > 0 ==> (off0 / BSIZE + blks - 1) * BSIZE < off0 + done <= (off0 / BSIZE + blks) * BSIZE)
    && (0 < done < n ==> off0 + done == (off0 / BSIZE + blks) * BSIZE)
  }

  lemma PositionStart(off0: nat, n: nat)
    ensures Position(off0, 0, 0, n)
  {
  }

  lemma Advance(off0: nat, done: nat, blks: nat, n: nat)
    requires Position(off0, done, blks, n) && done < n
    ensures var off := off0 + done;
            var piece := Min(n - done, BSIZE - off % BSIZE);
            && 0 < piece && off % BSIZE + piece <= BSIZE
            && off / BSIZE == off0 / BSIZE + blks
            && Position(off0, done + piece, blks + 1, n)
  {
    if done > 0 {
      assert (off0 + done) / BSIZE == off0 / BSIZE + blks;
    }
  }

  lemma PositionEnd(off0: nat, n: nat, blks: nat)
    requires Position(off0, n, blks, n) && n > 0
    ensures blks == (off0 + n - 1) / BSIZE - off0 / BSIZE + 1
  {
    assert (off0 + n - 1) / BSIZE == off0 / BSIZE + blks - 1;
  }

  /** Bitmap blocks logged in the first blks iterations: one per new data block -- the first block
      of an unaligned write is not new -- and one for the indirect block. */
  function MapBound(off0: nat, blks: nat): (n: nat) {
    if blks == 0 then 0
    else (if off0 % BSIZE == 0 then blks else blks - 1)
         + (if off0 / BSIZE <= NDIRECT < off0 / BSIZE + blks then 1 else 0)
  }

  lemma MapBoundStep(off0: nat, done: nat, blks: nat, n: nat, size: nat)
    requires Position(off0, done, blks, n) && off0 <= size
    ensures MapBound(off0, blks) + Allocations(Max(size, off0 + done), off0 / BSIZE + blks) <= MapBound(off0, blks + 1)
  {
  }

  lemma MapBoundTotal(off0: nat, done: nat, blks: nat, n: nat)
    requires Position(off0, done, blks, n) && done < n
    ensures MapBound(off0, blks + 1) <= MapBound(off0, Touching(off0, n))
  {
    assert blks + 1 <= Touching(off0, n);
  }

  /** How many blocks bmap allocates: none inside the mapped part; at its end the data block, and
      the indirect block when the direct ones have just run out. */
  function Allocations(ext: nat, bn: nat): (n: nat) {
    if bn * BSIZE < ext then 0 else if bn == NDIRECT then 2 else 1
  }

  lemma SplicedBytes(ino: Inode, blocks: Device, base: seq<Byte>, off: nat, src: seq<Byte>)
    requires Spliced(ino, blocks, base, off, src, |src|)
    ensures Bytes(ino, blocks, Max(|base|, off + |src|)) == Splice(base, off, src)
  {
    hide Addr, ByteAt;
  }

  lemma SplicedSize(ino: Inode, ino': Inode, blocks: Device, base: seq<Byte>, off: nat, src: seq<Byte>)
    requires Spliced(ino, blocks, base, off, src, |src|) && ino'.addrs == ino.addrs
    ensures Spliced(ino', blocks, base, off, src, |src|)
  {
    hide Word;
    assert forall f | 0 <= f < MAXFILE :: Addr(ino', blocks, f) == Addr(ino, blocks, f);
    assert forall k | 0 <= k < MAXBYTES :: ByteAt(ino', blocks, k) == ByteAt(ino, blocks, k);
  }

  lemma StoreSize(sb: Super, m: Image, i: nat, size: nat)
    requires Growing(sb, m, i, size)
    ensures var m' := m.(inodes := m.inodes[i := m.inodes[i].(size := size)]);
            Owned(sb, m') && forall j | j in m'.inodes ::
              m'.inodes[j].size <= MAXBYTES && Mapped(m'.inodes[j], m'.blocks, m'.inodes[j].size)
  {
    hide Word, Addr, Owned;
    SizeKeepsOwned(sb, m, i, size);
  }

  lemma SizeKeepsOwned(sb: Super, m: Image, i: nat, size: nat)
    requires Owned(sb, m) && i in m.inodes
    ensures Owned(sb, m.(inodes := m.inodes[i := m.inodes[i].(size := size)]))
    ensures Readable(m.inodes[i], m.blocks)
    ensures forall f | 0 <= f < MAXFILE ::
              Addr(m.inodes[i].(size := size), m.blocks, f) == Addr(m.inodes[i], m.blocks, f)
  {
    hide Word;
    OwnedReadable(sb, m, i);
    var m' := m.(inodes := m.inodes[i := m.inodes[i].(size := size)]);
    assert forall f | 0 <= f < MAXFILE :: Addr(m'.inodes[i], m.blocks, f) == Addr(m.inodes[i], m.blocks, f);
    forall j | j in m'.inodes ensures OwnsItsBlocks(m'.blocks, m'.inodes[j], j, m'.owner) {
      assert OwnsItsBlocks(m.blocks, m.inodes[j], j, m.owner);
    }
    forall x | x in m'.owner && !m'.owner[x].Meta? ensures Refers(m'.blocks, m'.inodes, m'.owner[x], x) {
      assert Refers(m.blocks, m.inodes, m.owner[x], x);
    }
  }

  /** A set of numbers in an interval is no larger than the interval. */
  lemma {:induction false} IntervalCard(s: set<nat>, lo: nat, hi: nat)
    requires lo <= hi && forall x | x in s :: lo <= x < hi
    ensures |s| <= hi - lo
    decreases hi - lo
  {
    if lo < hi {
      IntervalCard(s - {lo}, lo + 1, hi);
      assert |s| <= |s - {lo}| + 1
      by { assert s <= (s - {lo}) + {lo}; CardUnion(s - {lo}, {lo}); CardSubset(s, (s - {lo}) + {lo}); }
    } else {
      assert s == {};
    }
  }

  lemma CardUnion(a: set<nat>, b: set<nat>)
    ensures |a + b| <= |a| + |b|
  {
    assert a + b == a + (b - a);
    CardSubset(b - a, b);
  }

  lemma {:induction false} CardSubset(a: set<nat>, b: set<nat>)
    requires a <= b
    ensures |a| <= |b|
  {
    assert b == a + (b - a);
  }

  /** The number of bitmap blocks. */
  function MapBlocks(sb: Super): (n: nat) { if sb.bmapstart <= sb.datastart then sb.datastart - sb.bmapstart else 0 }

  /** How many blocks, besides the inode's, writei logs at most when it puts n bytes at off into a file of this
      size: the data blocks; and unless the file covers them, the indirect block and bitmap blocks. */
  function Cost(off: nat, n: nat, size: nat, mapBlocks: nat): (k: nat) {
    if n == 0 then 0
    else if off + n <= size then Touching(off, n)
    else Touching(off, n) + (if off / BSIZE + Touching(off, n) > NDIRECT then 1 else 0)
         + Min(MapBound(off, Touching(off, n)), mapBlocks)
  }

  lemma CountLogged(sb: Super, off: nat, n: nat, size: nat, data: set<nat>, touched: set<nat>, maps: set<nat>)
    requires n > 0 && sb.Ok() && |data| <= Touching(off, n) && |maps| <= MapBound(off, Touching(off, n))
    requires |touched| <= if off / BSIZE + Touching(off, n) > NDIRECT then 1 else 0
    requires forall x | x in maps :: sb.bmapstart <= x < sb.datastart
    ensures |if off + n <= size then data else data + touched + maps| <= Cost(off, n, size, MapBlocks(sb))
  {
    hide Touching, MapBound;
    IntervalCard(maps, sb.bmapstart, sb.datastart);
    CardUnion(data, touched);
    CardUnion(data + touched, maps);
  }

  /** A chunk of filewrite: four data blocks, an indirect block and four bitmap blocks, or fewer. With the inode's
      block that is at most MAXOPBLOCKS. */
  lemma ChunkCost(off: nat, n: nat, size: nat, mapBlocks: nat)
    requires n <= 1536
    ensures Cost(off, n, size, mapBlocks) <= 5 + Min(4, mapBlocks)
  {
  }

  /** A piece of the byte string that lies inside one block. */
  lemma BytesInBlock(ino: Inode, blocks: Device, ext: nat, off: nat, m: nat)
    requires Readable(ino, blocks) && ext <= MAXBYTES && off + m <= ext && off < ext && off % BSIZE + m <= BSIZE
    ensures Bytes(ino, blocks, ext)[off..off + m] ==
            blocks[Addr(ino, blocks, off / BSIZE)][off % BSIZE..off % BSIZE + m]
  {
    hide Addr;
    forall p | off <= p < off + m
      ensures Bytes(ino, blocks, ext)[p] == blocks[Addr(ino, blocks, off / BSIZE)][off % BSIZE + (p - off)]
    {
      SameBlockIff(off, p, m);
    }
  }

  lemma OwnedFacts(sb: Super, m: Image)
    requires Owned(sb, m)
    ensures |m.blocks| == |m.bits| == sb.size && sb.Ok()
    ensures forall b | 0 <= b < sb.size :: m.bits[b] <==> b in m.owner
  {
  }

  /** In the free map, exactly the blocks of file i below file block d have been given back. */
  ghost predicate FreedUpTo(m: Image, i: nat, d: nat, bits: seq<bool>) {
    forall b | 0 <= b < |bits| ::
      bits[b] <==> b in m.owner && !(m.owner[b].Data? && m.owner[b].inum == i && m.owner[b].fbn < d)
  }

  lemma FreedNone(sb: Super, m: Image, i: nat)
    requires Owned(sb, m)
    ensures FreedUpTo(m, i, 0, m.bits)
  {
    hide Word;
  }

  /** Giving back file block f, if there is one, continues the sweep; its bit is still set. */
  lemma FreeStep(sb: Super, m: Image, i: nat, f: nat, bits: seq<bool>)
    requires Owned(sb, m) && i in m.inodes && f < MAXFILE && |bits| == sb.size && FreedUpTo(m, i, f, bits)
    ensures Readable(m.inodes[i], m.blocks)
    ensures var a := Addr(m.inodes[i], m.blocks, f);
            && a < sb.size
            && (a == 0 ==> FreedUpTo(m, i, f + 1, bits))
            && (a != 0 ==> bits[a] && FreedUpTo(m, i, f + 1, bits[a := false]))
  {
    hide Word, Addr;
    OwnedReadable(sb, m, i);
    assert OwnsItsBlocks(m.blocks, m.inodes[i], i, m.owner);
    var a := Addr(m.inodes[i], m.blocks, f);
    forall b | b in m.owner && m.owner[b] == Data(i, f) ensures b == a && a != 0 {
      assert Refers(m.blocks, m.inodes, m.owner[b], b);
    }
  }

  /** The bitmap blocks of the data blocks of file i below file block d. */
  ghost function MapsBelow(sb: Super, owner: map<nat, Owner>, i: nat, d: nat): (r: set<nat>) {
    set b | b in owner && owner[b].Data? && owner[b].inum == i && owner[b].fbn < d :: sb.BitBlock(b)
  }

  /** The bitmap blocks of all blocks of file i. */
  ghost function MapsOf(sb: Super, owner: map<nat, Owner>, i: nat): (r: set<nat>) {
    set b | b in owner && !owner[b].Meta? && owner[b].inum == i :: sb.BitBlock(b)
  }

  lemma MapsNone(sb: Super, owner: map<nat, Owner>, i: nat)
    ensures MapsBelow(sb, owner, i, 0) == {}
  {
  }

  lemma MapsGrow(sb: Super, owner: map<nat, Owner>, i: nat)
    ensures MapsBelow(sb, owner, i, NDIRECT) <= MapsBelow(sb, owner, i, MAXFILE)
  {
  }

  lemma MapsStep(sb: Super, m: Image, i: nat, f: nat)
    requires Owned(sb, m) && i in m.inodes && f < MAXFILE
    ensures Readable(m.inodes[i], m.blocks)
    ensures var a := Addr(m.inodes[i], m.blocks, f);
            MapsBelow(sb, m.owner, i, f + 1) == MapsBelow(sb, m.owner, i, f) + if a == 0 then {} else {sb.BitBlock(a)}
  {
    hide Word, Addr;
    OwnedReadable(sb, m, i);
    assert OwnsItsBlocks(m.blocks, m.inodes[i], i, m.owner);
    var a := Addr(m.inodes[i], m.blocks, f);
    forall b | b in m.owner && m.owner[b] == Data(i, f) ensures b == a && a != 0 {
      assert Refers(m.blocks, m.inodes, m.owner[b], b);
    }
  }

  lemma MapsAll(sb: Super, m: Image, i: nat)
    requires Owned(sb, m) && i in m.inodes
    ensures var ind := m.inodes[i].addrs[NDIRECT];
            MapsOf(sb, m.owner, i) == if ind == 0 then MapsBelow(sb, m.owner, i, NDIRECT)
            else MapsBelow(sb, m.owner, i, MAXFILE) + {sb.BitBlock(ind)}
  {
    hide Word;
    var ind := m.inodes[i].addrs[NDIRECT];
    assert OwnsItsBlocks(m.blocks, m.inodes[i], i, m.owner);
    forall b | b in m.owner && !m.owner[b].Meta? && m.owner[b].inum == i
      ensures m.owner[b].Indirect? ==> b == ind != 0
      ensures m.owner[b].Data? ==> m.owner[b].fbn < if ind == 0 then NDIRECT else MAXFILE
    {
      assert Refers(m.blocks, m.inodes, m.owner[b], b);
      assert b >= sb.datastart;
    }
  }

  /** In the free map, exactly the blocks of file i have been given back. */
  ghost predicate Released(m: Image, i: nat, bits: seq<bool>) {
    forall b | 0 <= b < |bits| :: bits[b] <==> b in m.owner && (m.owner[b].Meta? || m.owner[b].inum != i)
  }

  ghost function OwnersWithout(owner: map<nat, Owner>, i: nat): (r: map<nat, Owner>) {
    map b | b in owner && (owner[b].Meta? || owner[b].inum != i) :: owner[b]
  }

  lemma ReleasedFacts(m: Image, i: nat, bits: seq<bool>)
    requires Released(m, i, bits)
    ensures forall b | 0 <= b < |bits| :: bits[b] <==> b in m.owner && (m.owner[b].Meta? || m.owner[b].inum != i)
  {
  }

  lemma ReleasedWithIndirect(sb: Super, m: Image, i: nat, bits: seq<bool>)
    requires Owned(sb, m) && i in m.inodes && |bits| == sb.size && FreedUpTo(m, i, MAXFILE, bits)
    requires m.inodes[i].addrs[NDIRECT] != 0
    ensures var ind := m.inodes[i].addrs[NDIRECT]; ind < sb.size && bits[ind] && Released(m, i, bits[ind := false])
  {
    hide Word, Addr;
    assert OwnsItsBlocks(m.blocks, m.inodes[i], i, m.owner);
    forall b | b in m.owner && !m.owner[b].Meta? && m.owner[b].inum == i
      ensures m.owner[b].Indirect? ==> b == m.inodes[i].addrs[NDIRECT]
      ensures m.owner[b].Data? ==> m.owner[b].fbn < MAXFILE
    {
      assert Refers(m.blocks, m.inodes, m.owner[b], b);
    }
  }

  lemma ReleasedWithoutIndirect(sb: Super, m: Image, i: nat, bits: seq<bool>)
    requires Owned(sb, m) && i in m.inodes && |bits| == sb.size && FreedUpTo(m, i, NDIRECT, bits)
    requires m.inodes[i].addrs[NDIRECT] == 0
    ensures Released(m, i, bits)
  {
    hide Word;
    forall b | b in m.owner && !m.owner[b].Meta? && m.owner[b].inum == i
      ensures m.owner[b].Data? && m.owner[b].fbn < NDIRECT
    {
      assert Refers(m.blocks, m.inodes, m.owner[b], b);
    }
  }

  /** m' is m after file i has given back all its blocks. */
  ghost predicate EmptiedFrom(m: Image, i: nat, m': Image) {
    && i in m.inodes && Released(m, i, m'.bits) && |m'.bits| == |m.bits| && m'.blocks == m.blocks
    && m'.inodes == m.inodes[i := m.inodes[i].(size := 0, addrs := seq(NDIRECT + 1, _ => 0))]
    && m'.owner == OwnersWithout(m.owner, i)
  }

  lemma NoAddrs(ino: Inode, blocks: Device)
    requires ino.addrs == seq(NDIRECT + 1, _ => 0) && 0 < |blocks|
    ensures forall f | 0 <= f < MAXFILE :: Addr(ino, blocks, f) == 0
  {
  }

  lemma EmptiedOwned(sb: Super, m: Image, i: nat, m': Image)
    requires Owned(sb, m) && EmptiedFrom(m, i, m')
    ensures Owned(sb, m')
  {
    hide Addr;
    NoAddrs(m.inodes[i].(size := 0, addrs := seq(NDIRECT + 1, _ => 0)), m'.blocks);
    forall j | j in m'.inodes ensures OwnsItsBlocks(m'.blocks, m'.inodes[j], j, m'.owner) {
      assert OwnsItsBlocks(m.blocks, m.inodes[j], j, m.owner);
    }
    forall x | x in m'.owner && !m'.owner[x].Meta? ensures Refers(m'.blocks, m'.inodes, m'.owner[x], x) {
      assert Refers(m.blocks, m.inodes, m.owner[x], x);
    }
  }

  /** A file without blocks, and all others as they were. */
  lemma Emptied(sb: Super, m: Image, i: nat, m': Image)
    requires Owned(sb, m) && EmptiedFrom(m, i, m')
    requires forall j | j in m.inodes :: m.inodes[j].size <= MAXBYTES && Mapped(m.inodes[j], m.blocks, m.inodes[j].size)
    ensures Owned(sb, m')
    ensures forall j | j in m'.inodes ::
              m'.inodes[j].size <= MAXBYTES && Mapped(m'.inodes[j], m'.blocks, m'.inodes[j].size)
  {
    hide Owned, OwnersWithout, Released, Addr;
    EmptiedOwned(sb, m, i, m');
    OwnedFacts(sb, m);
    NoAddrs(m.inodes[i].(size := 0, addrs := seq(NDIRECT + 1, _ => 0)), m'.blocks);
  }

  lemma EmptiedFiles(sb: Super, m: Image, m': Image, i: nat)
    requires Owned(sb, m) && Owned(sb, m') && i in m.inodes && m'.blocks == m.blocks
    requires m'.inodes == m.inodes[i := m.inodes[i].(size := 0, addrs := seq(NDIRECT + 1, _ => 0))]
    requires forall j | j in m.inodes :: m.inodes[j].size <= MAXBYTES
    ensures Sound(m) && Sound(m') && FilesOf(m') == FilesOf(m)[i := []]
  {
    hide Addr, Owned, FilesOf;
    ValidSound(sb, m);
    ValidSound(sb, m');
    forall j | j in m.inodes && j != i
      ensures SameBlocks(m.inodes[j], m.blocks, m.inodes[j], m.blocks, m.inodes[j].size) {
      OwnedReadable(sb, m, j);
    }
    FilesUpdate(m, m', i, []);
  }

  /** An inode without blocks disturbs nobody. */
  lemma NewInode(sb: Super, m: Image, i: nat, kind: nat, nlink: int)
    requires Owned(sb, m) && i !in m.inodes
    ensures var ino := Inode(kind, nlink, 0, seq(NDIRECT + 1, _ => 0));
            && Owned(sb, m.(inodes := m.inodes[i := ino])) && Mapped(ino, m.blocks, 0)
  {
    hide Word;
    var ino := Inode(kind, nlink, 0, seq(NDIRECT + 1, _ => 0));
    var m' := m.(inodes := m.inodes[i := ino]);
    assert forall f | 0 <= f < MAXFILE :: Addr(ino, m.blocks, f) == 0;
    hide Addr;
    forall j | j in m'.inodes ensures OwnsItsBlocks(m'.blocks, m'.inodes[j], j, m'.owner) {
      if j != i { assert OwnsItsBlocks(m.blocks, m.inodes[j], j, m.owner); }
    }
    forall x | x in m'.owner && !m'.owner[x].Meta? ensures Refers(m'.blocks, m'.inodes, m'.owner[x], x) {
      assert Refers(m.blocks, m.inodes, m.owner[x], x);
    }
  }

  /** A new empty file. */
  lemma FilesWith(sb: Super, m: Image, m': Image, i: nat)
    requires Owned(sb, m) && Owned(sb, m') && i !in m.inodes && m'.blocks == m.blocks && i in m'.inodes
             && m'.inodes == m.inodes[i := m'.inodes[i]] && m'.inodes[i].size == 0
    requires forall j | j in m'.inodes :: m'.inodes[j].size <= MAXBYTES
    ensures Sound(m) && Sound(m') && FilesOf(m') == FilesOf(m)[i := []]
  {
    hide Owned, Addr;
    assert forall j | j in m.inodes :: m'.inodes[j] == m.inodes[j];
    ValidSound(sb, m);
    ValidSound(sb, m');
  }

  lemma JournaledNew(sb: Super, v: Volume, i: nat, ino: Inode)
    ensures Journaled(sb, v, v.(dinodes := v.dinodes[i := ino], logged := v.logged + {sb.InodeBlock(i)}))
  {
  }

  lemma JournaledDrop(sb: Super, v: Volume, i: nat)
    ensures Journaled(sb, v, v.(dinodes := v.dinodes - {i}, logged := v.logged + {sb.InodeBlock(i)}))
  {
  }

  lemma LinksKeep(sb: Super, m: Image, i: nat, nlink: int)
    requires Owned(sb, m) && i in m.inodes
    requires forall j | j in m.inodes :: m.inodes[j].size <= MAXBYTES && Mapped(m.inodes[j], m.blocks, m.inodes[j].size)
    ensures var m' := m.(inodes := m.inodes[i := m.inodes[i].(nlink := nlink)]);
            && Owned(sb, m') && Sound(m) && Sound(m') && FilesOf(m') == FilesOf(m)
            && forall j | j in m'.inodes ::
                 m'.inodes[j].size <= MAXBYTES && Mapped(m'.inodes[j], m'.blocks, m'.inodes[j].size)
  {
    hide Addr, Owned;
    LinksOwned(sb, m, i, nlink);
    var m' := m.(inodes := m.inodes[i := m.inodes[i].(nlink := nlink)]);
    ValidSound(sb, m);
    ValidSound(sb, m');
    SameAddrs(m.inodes[i], m'.inodes[i], m.blocks);
    assert Bytes(m'.inodes[i], m.blocks, m.inodes[i].size) == Bytes(m.inodes[i], m.blocks, m.inodes[i].size);
  }

  lemma LinksOwned(sb: Super, m: Image, i: nat, nlink: int)
    requires Owned(sb, m) && i in m.inodes
    ensures Owned(sb, m.(inodes := m.inodes[i := m.inodes[i].(nlink := nlink)]))
  {
    hide Addr;
    var m' := m.(inodes := m.inodes[i := m.inodes[i].(nlink := nlink)]);
    OwnedReadable(sb, m, i);
    SameAddrs(m.inodes[i], m'.inodes[i], m.blocks);
    forall j | j in m'.inodes ensures OwnsItsBlocks(m'.blocks, m'.inodes[j], j, m'.owner) {
      assert OwnsItsBlocks(m.blocks, m.inodes[j], j, m.owner);
    }
    forall x | x in m'.owner && !m'.owner[x].Meta? ensures Refers(m'.blocks, m'.inodes, m'.owner[x], x) {
      assert Refers(m.blocks, m.inodes, m.owner[x], x);
    }
  }

  lemma SameAddrs(ino: Inode, ino': Inode, blocks: Device)
    requires ino'.addrs == ino.addrs && ino.addrs[NDIRECT] < |blocks|
    ensures forall f | 0 <= f < MAXFILE :: Addr(ino', blocks, f) == Addr(ino, blocks, f)
  {
    hide Word;
  }

  /** An inode without blocks goes. */
  lemma DropInode(sb: Super, m: Image, i: nat)
    requires Owned(sb, m) && i in m.inodes && m.inodes[i].addrs == seq(NDIRECT + 1, _ => 0)
    ensures Owned(sb, m.(inodes := m.inodes - {i}))
  {
    hide Word;
    var m' := m.(inodes := m.inodes - {i});
    assert forall f | 0 <= f < MAXFILE :: Addr(m.inodes[i], m.blocks, f) == 0;
    hide Addr;
    forall j | j in m'.inodes ensures OwnsItsBlocks(m'.blocks, m'.inodes[j], j, m'.owner) {
      assert OwnsItsBlocks(m.blocks, m.inodes[j], j, m.owner);
    }
    forall x | x in m'.owner && !m'.owner[x].Meta? ensures Refers(m'.blocks, m'.inodes, m'.owner[x], x) {
      assert Refers(m.blocks, m.inodes, m.owner[x], x);
      assert x >= sb.datastart > 0;
    }
  }

  lemma FilesWithout(sb: Super, m: Image, m': Image, i: nat)
    requires Owned(sb, m) && Owned(sb, m') && m'.blocks == m.blocks && m'.inodes == m.inodes - {i}
    requires forall j | j in m.inodes :: m.inodes[j].size <= MAXBYTES
    ensures Sound(m) && Sound(m') && FilesOf(m') == FilesOf(m) - {i}
  {
    hide Owned, Addr;
    ValidSound(sb, m);
    ValidSound(sb, m');
  }

  /** Contents c is base after the first `done` bytes of src were written at off. */
  ghost predicate Written(base: seq<Byte>, off: nat, src: seq<Byte>, done: nat, c: seq<Byte>) {
    && done <= |src|
    && if done == 0 then c == base
       else off <= |base| && off + done <= MAXBYTES && c == Splice(base, off, src[..done])
  }

  lemma WrittenNone(base: seq<Byte>, off: nat, src: seq<Byte>)
    ensures Written(base, off, src, 0, base)
  {
  }

  lemma WrittenMore(base: seq<Byte>, off: nat, src: seq<Byte>, done: nat, n1: nat, c: seq<Byte>, c': seq<Byte>)
    requires Written(base, off, src, done, c) && off + done <= |c| && 0 < n1 && done + n1 <= |src|
    requires off + done + n1 <= MAXBYTES && c' == Splice(c, off + done, src[done..done + n1])
    ensures Written(base, off, src, done + n1, c')
  {
    assert src[..done] + src[done..done + n1] == src[..done + n1];
    if done > 0 {
      SpliceTwice(base, off, src[..done], src[done..done + n1]);
    }
  }

  /** Consecutive writes are one write. */
  lemma SpliceTwice(base: seq<Byte>, off: nat, a: seq<Byte>, b: seq<Byte>)
    requires off <= |base|
    ensures Splice(Splice(base, off, a), off + |a|, b) == Splice(base, off, a + b)
  {
  }

  /** Where an inode can hold a block address: file block f, or (f == MAXFILE) its indirect block. */
  function AddrAt(ino: Inode, blocks: Device, f: nat): (a: nat)
    requires f <= MAXFILE && ino.addrs[NDIRECT] < |blocks|
  {
    if f == MAXFILE then ino.addrs[NDIRECT] else Addr(ino, blocks, f)
  }

  /** Block ownership and conservation, without mention of the owner map: a bit is set exactly for
      metadata blocks and for blocks some inode refers to, and no block is referred to twice. */
  lemma OwnershipExact(sb: Super, m: Image)
    requires Owned(sb, m)
    ensures forall i | i in m.inodes :: m.inodes[i].addrs[NDIRECT] < |m.blocks|
    ensures forall b | 0 <= b < sb.size :: m.bits[b] <==>
                                           b < sb.datastart || exists i, f ::
                                             i in m.inodes && 0 <= f <= MAXFILE
                                             && AddrAt(m.inodes[i], m.blocks, f) == b
    ensures forall i, f, j, g | i in m.inodes && j in m.inodes && 0 <= f <= MAXFILE && 0 <= g <= MAXFILE ::
              AddrAt(m.inodes[i], m.blocks, f) == AddrAt(m.inodes[j], m.blocks, g) != 0 ==> i == j && f == g
    ensures forall i, f | i in m.inodes && 0 <= f <= MAXFILE ::
              AddrAt(m.inodes[i], m.blocks, f) != 0 ==> sb.datastart <= AddrAt(m.inodes[i], m.blocks, f) < sb.size
  {
    hide Word, Addr;
    forall i | i in m.inodes ensures m.inodes[i].addrs[NDIRECT] < |m.blocks| { OwnedReadable(sb, m, i); }
    forall i, f | i in m.inodes && 0 <= f <= MAXFILE && AddrAt(m.inodes[i], m.blocks, f) != 0
      ensures var a := AddrAt(m.inodes[i], m.blocks, f);
              a in m.owner && m.owner[a] == (if f == MAXFILE then Indirect(i) else Data(i, f))
    {
      assert OwnsItsBlocks(m.blocks, m.inodes[i], i, m.owner);
    }
    forall b | 0 <= b < sb.size && m.bits[b] && b >= sb.datastart
      ensures exists i, f :: i in m.inodes && 0 <= f <= MAXFILE && AddrAt(m.inodes[i], m.blocks, f) == b
    {
      var o := m.owner[b];
      assert Refers(m.blocks, m.inodes, o, b);
      assert AddrAt(m.inodes[o.inum], m.blocks, if o.Indirect? then MAXFILE else o.fbn) == b;
    }
  }
}
