/** mkfs.c: building the initial image, by allocating inodes and appending to them, block after block. */
module Mkfs {
  import opened Common
  import opened Disk
  import opened Inode
  import opened FileSystem

  const ROOTINO := 1

  /** The free map in which exactly the blocks below k are used. */
  function Below(size: nat, k: nat): (bits: seq<bool>)
    ensures |bits| == size && forall b | 0 <= b < size :: bits[b] == (b < k)
  {
    seq(size, b => b < k)
  }

  lemma BelowNext(size: nat, k: nat)
    requires k < size
    ensures Below(size, k + 1) == Below(size, k)[k := true]
  {
  }

  /** Exactly the blocks below freeblock are used, and the others are still zero. */
  ghost predicate Sequential(sb: Super, blocks: Device, owner: map<nat, Owner>, freeblock: nat) {
    && freeblock <= sb.size == |blocks|
    && (forall b | b in owner :: b < freeblock)
    && (forall b | freeblock <= b < sb.size :: blocks[b] == ZERO_BLOCK)
  }

  class Maker {
    const sb: Super
    var blocks: Device
    var inodes: map<nat, Inode>
    var freeblock: nat
    var freeinode: nat
    var bits: seq<bool>              // the bitmap, written at the end
    ghost var owner: map<nat, Owner>

    /** The image as it would be if the bitmap were written now. */
    ghost function Img(): (m: Image)
      reads this
    {
      Image(blocks, Below(sb.size, freeblock), inodes, owner)
    }

    /** Every block has one owner, no file has a hole, and blocks are handed out in order. */
    ghost predicate Valid()
      reads this
    {
      && Owned(sb, Img()) && Sequential(sb, blocks, owner, freeblock)
      && (forall j | j in inodes ::
            j < freeinode && inodes[j].size <= MAXBYTES && Mapped(inodes[j], blocks, inodes[j].size))
      && (forall j | j in inodes :: sb.InodeBlock(j) < sb.bmapstart)
    }

    ghost function Files(): (r: map<nat, seq<Byte>>)
      requires Valid()
      reads this
    {
      ValidSound(sb, Img());
      FilesOf(Img())
    }

    /** Only metadata, and every block zero. */
    constructor (sb: Super)
      requires sb.Ok()
      ensures Valid() && this.sb == sb && Files() == map[] && freeinode == ROOTINO && freeblock == sb.datastart
    {
      this.sb, blocks, inodes := sb, seq(sb.size, _ => ZERO_BLOCK), map[];
      freeblock, freeinode, bits := sb.datastart, ROOTINO, [];
      owner := MetaBelow(sb.datastart);
    }

    /** ialloc; false when winode would write the inode past the last inode block, into the bitmap. */
    method Ialloc(kind: nat) returns (ok: bool, inum: nat)
      requires Valid()
      modifies this`inodes, this`freeinode
      ensures inum == old(freeinode) && (ok <==> sb.InodeBlock(inum) < sb.bmapstart)
      ensures ok ==> Valid() && freeinode == inum + 1 && inum !in old(inodes)
      ensures ok ==> inodes == old(inodes)[inum := Inode(kind, 1, 0, seq(NDIRECT + 1, _ => 0))]
      ensures ok ==> Files() == old(Files())[inum := []]
    {
      inum := freeinode;
      ok := sb.InodeBlock(inum) < sb.bmapstart;
      if !ok { return; }
      NewInode(sb, Img(), inum, kind, 1);
      freeinode := freeinode + 1;
      inodes := inodes[inum := Inode(kind, 1, 0, seq(NDIRECT + 1, _ => 0))];
      FilesWith(sb, old(Img()), Img(), inum);
    }

    /** freeblock++ for a direct block. */
    method TakeDirect(i: nat, fbn: nat, ghost ext: nat)
      requires Growing(sb, Img(), i, ext) && Sequential(sb, blocks, owner, freeblock) && freeblock < sb.size
      requires fbn < NDIRECT && fbn * BSIZE == ext
      modifies this`inodes, this`freeblock, this`owner
      ensures Growing(sb, Img(), i, ext + 1) && Sequential(sb, blocks, owner, freeblock)
              && Kept(old(Img()), Img(), i, ext)
      ensures inodes.Keys == old(inodes.Keys) && inodes[i].addrs[fbn] == old(freeblock)
              && Addr(inodes[i], blocks, fbn) == old(freeblock) != 0
      ensures freeblock == old(freeblock) + 1
    {
      hide Growing, Owned, Mapped, Kept, Addr;
      ghost var m := Img();
      GrowingFacts(sb, m, i, ext);
      GrowDirect(sb, m, i, ext, fbn, freeblock);
      BelowNext(sb.size, freeblock);
      MetaFirst(sb, m, i, ext, freeblock);
      inodes := inodes[i := WithAddr(inodes[i], fbn, freeblock)];
      owner := owner[freeblock := Data(i, fbn)];
      freeblock := freeblock + 1;
      assert Img() == LinkDirect(m, i, fbn, old(freeblock));
    }

    /** freeblock++ for the indirect block. */
    method TakeIndirect(i: nat, ghost ext: nat)
      requires Growing(sb, Img(), i, ext) && Sequential(sb, blocks, owner, freeblock) && freeblock < sb.size
      requires ext == NDIRECT * BSIZE && inodes[i].addrs[NDIRECT] == 0
      modifies this`inodes, this`freeblock, this`owner
      ensures Growing(sb, Img(), i, ext) && Sequential(sb, blocks, owner, freeblock) && Kept(old(Img()), Img(), i, ext)
      ensures inodes.Keys == old(inodes.Keys) && inodes[i].addrs[NDIRECT] == old(freeblock) != 0
      ensures freeblock == old(freeblock) + 1
    {
      hide Growing, Mapped, Kept, Addr;
      ghost var m := Img();
      GrowingFacts(sb, m, i, ext);
      GrowIndirect(sb, m, i, ext, freeblock);
      BelowNext(sb.size, freeblock);
      MetaFirst(sb, m, i, ext, freeblock);
      inodes := inodes[i := WithAddr(inodes[i], NDIRECT, freeblock)];
      owner := owner[freeblock := Indirect(i)];
      freeblock := freeblock + 1;
      assert Img() == LinkIndirect(m, i, old(freeblock));
    }

    /** freeblock++ for a block entered in the indirect block. */
    method TakeEntry(i: nat, fbn: nat, ghost ext: nat)
      requires Growing(sb, Img(), i, ext) && Sequential(sb, blocks, owner, freeblock) && freeblock < sb.size
      requires NDIRECT <= fbn < MAXFILE && fbn * BSIZE == ext && inodes[i].addrs[NDIRECT] != 0
      modifies this`blocks, this`freeblock, this`owner
      ensures Growing(sb, Img(), i, ext + 1) && Sequential(sb, blocks, owner, freeblock)
              && Kept(old(Img()), Img(), i, ext)
      ensures Addr(inodes[i], blocks, fbn) == old(freeblock) != 0
      ensures freeblock == old(freeblock) + 1
    {
      hide Growing, Owned, Mapped, Kept, Addr, SetWord, Word;
      ghost var m := Img();
      GrowingFacts(sb, m, i, ext);
      GrowEntry(sb, m, i, ext, fbn, freeblock);
      BelowNext(sb.size, freeblock);
      MetaFirst(sb, m, i, ext, freeblock);
      var ind := inodes[i].addrs[NDIRECT];
      blocks := blocks[ind := SetWord(blocks[ind], fbn - NDIRECT, freeblock)];
      owner := owner[freeblock := Data(i, fbn)];
      freeblock := freeblock + 1;
      assert Img() == LinkEntry(m, i, fbn, old(freeblock));
    }

    /** The block of file block fbn, taken if it is not there; None when the image is full. */
    method BlockFor(i: nat, fbn: nat, ghost ext: nat) returns (x: Option<nat>)
      requires Growing(sb, Img(), i, ext) && Sequential(sb, blocks, owner, freeblock) && fbn < MAXFILE
               && fbn * BSIZE <= ext
      modifies this`blocks, this`inodes, this`freeblock, this`owner
      ensures x.None? ==> old(freeblock) + Allocations(ext, fbn) > sb.size
      ensures x.Some? ==> freeblock <= old(freeblock) + Allocations(ext, fbn)
      ensures x.Some? ==> Growing(sb, Img(), i, Extent(ext, fbn)) && Sequential(sb, blocks, owner, freeblock)
      ensures x.Some? ==> Kept(old(Img()), Img(), i, ext) && Addr(inodes[i], blocks, fbn) == x.value != 0
    {
      hide Growing, Owned, Mapped, Kept, SetWord, Word, Sequential;
      GrowingFacts(sb, Img(), i, ext);
      StaysKept(sb, Img(), i, ext);
      MappedAt(inodes[i], blocks, ext, fbn);
      if fbn < NDIRECT {
        if inodes[i].addrs[fbn] == 0 {
          if freeblock >= sb.size { return None; }
          TakeDirect(i, fbn, ext);
        }
        return Some(inodes[i].addrs[fbn]);
      }
      if inodes[i].addrs[NDIRECT] == 0 {
        if freeblock >= sb.size { return None; }
        TakeIndirect(i, ext);
      }
      ghost var m1 := Img();
      GrowingFacts(sb, m1, i, ext);
      MappedAt(inodes[i], blocks, ext, fbn);
      var entry := Word(blocks[inodes[i].addrs[NDIRECT]], fbn - NDIRECT);
      if entry == 0 {
        if freeblock >= sb.size { return None; }
        TakeEntry(i, fbn, ext);
        GrowingFacts(sb, Img(), i, ext + 1);
        KeptTransitive(old(Img()), m1, Img(), i, ext);
        entry := Word(blocks[inodes[i].addrs[NDIRECT]], fbn - NDIRECT);
      }
      return Some(entry);
    }

    /** iappend; false when the assertion on the file size fails or the image is full. */
    method Iappend(i: nat, xp: seq<Byte>) returns (ok: bool)
      requires Valid() && i in inodes
      modifies this`blocks, this`inodes, this`freeblock, this`owner
      ensures !ok ==> |xp| > 0
      ensures !ok ==> old(inodes[i].size) + |xp| > MAXBYTES
                      || old(freeblock) + Wanted(old(inodes[i].size), |xp|) > sb.size
      ensures ok ==> freeblock <= old(freeblock) + Wanted(old(inodes[i].size), |xp|) && freeinode == old(freeinode)
      ensures ok ==> Valid() && inodes.Keys == old(inodes.Keys) && inodes[i].size == old(inodes[i].size) + |xp|
      ensures ok ==> Files() == old(Files())[i := old(Files())[i] + xp]
    {
      hide Growing, Owned, Mapped, Kept, Addr, Spliced, Sequential, Bytes, FilesOf, Sound, Position, MapBound,
        Allocations;
      NothingWanted(inodes[i].size);
      ghost var m0 := Img();
      ghost var base := AppendStart(sb, m0, i, xp);
      var off := inodes[i].size;
      var n := 0;
      ghost var blks := 0;
      PositionStart(|base|, |xp|);
      while n < |xp|
        invariant 0 <= n <= |xp| && Appending(i, xp, base, m0, n, off, blks, old(freeblock))
      {
        var n1;
        ok, n1 := AppendTurn(i, xp, n, off, m0, base, blks, old(freeblock));
        if !ok { return; }
        n, off, blks := n + n1, off + n1, blks + 1;
      }
      if n > 0 { PositionEnd(|base|, n, blks); }
      ghost var m1 := Img();
      AppendEnd(sb, m0, m1, i, off, xp, base);
      inodes := inodes[i := inodes[i].(size := off)];
      assert Img() == m1.(inodes := inodes) && inodes.Keys == m0.inodes.Keys;
      ok := true;
    }

    /** After blks turns of the loop, which have appended n bytes. */
    ghost predicate Appending(i: nat, xp: seq<Byte>, base: seq<Byte>, m0: Image, n: nat, off: nat, blks: nat, fb0: nat)
      reads this
    {
      && i in inodes && inodes[i].size == |base| && off == |base| + n && n <= |xp|
      && Growing(sb, Img(), i, off) && Sequential(sb, blocks, owner, freeblock)
      && Kept(m0, Img(), i, 0) && Spliced(inodes[i], blocks, base, |base|, xp, n)
      && (n == 0 ==> blks == 0) && Position(|base|, n, blks, |xp|) && freeblock <= fb0 + MapBound(|base|, blks)
    }

    /** One turn of iappend's loop. */
    method AppendTurn(i: nat, xp: seq<Byte>, n: nat, off: nat, ghost m0: Image, ghost base: seq<Byte>,
                      ghost blks: nat, ghost fb0: nat)
      returns (ok: bool, n1: nat)
      requires n < |xp| && Appending(i, xp, base, m0, n, off, blks, fb0)
      modifies this`blocks, this`inodes, this`freeblock, this`owner
      ensures !ok ==> |base| + |xp| > MAXBYTES || fb0 + Wanted(|base|, |xp|) > sb.size
      ensures ok ==> 0 < n1 && n + n1 <= |xp| && Appending(i, xp, base, m0, n + n1, off + n1, blks + 1, fb0)
    {
      hide Growing, Owned, Mapped, Kept, Addr, Spliced, Sequential, Position, MapBound, Allocations;
      var fbn := off / BSIZE;
      LeftInBlock(off);
      n1 := 0;
      if fbn >= MAXFILE { return false, 0; }
      Advance(|base|, n, blks, |xp|);
      MapBoundStep(|base|, n, blks, |xp|, |base|);
      MapBoundTotal(|base|, n, blks, |xp|);
      n1 := Min(|xp| - n, (fbn + 1) * BSIZE - off);
      ok := AppendPiece(i, xp, n, off, n1, m0, base);
    }

    method AppendPiece(i: nat, xp: seq<Byte>, n: nat, off: nat, n1: nat, ghost m0: Image, ghost base: seq<Byte>)
      returns (put: bool)
      requires i in inodes && inodes[i].size == |base| && off == |base| + n && off / BSIZE < MAXFILE
      requires n < |xp| && n1 == Min(|xp| - n, (off / BSIZE + 1) * BSIZE - off)
      requires Growing(sb, Img(), i, off) && Sequential(sb, blocks, owner, freeblock)
      requires Kept(m0, Img(), i, 0) && Spliced(inodes[i], blocks, base, |base|, xp, n)
      modifies this`blocks, this`inodes, this`freeblock, this`owner
      ensures 0 < n1 && n + n1 <= |xp| && off + n1 <= MAXBYTES
      ensures !put ==> old(freeblock) + Allocations(off, off / BSIZE) > sb.size
      ensures put ==> freeblock <= old(freeblock) + Allocations(off, off / BSIZE)
      ensures put ==> i in inodes && inodes[i].size == |base| && Growing(sb, Img(), i, off + n1)
                      && Sequential(sb, blocks, owner, freeblock)
      ensures put ==> Kept(m0, Img(), i, 0) && Spliced(inodes[i], blocks, base, |base|, xp, n + n1)
    {
      hide Growing, Owned, Mapped, Addr, Spliced, Sequential, SameBlocks, Allocations;
      ghost var m1 := Img();
      var x := BlockFor(i, off / BSIZE, off);
      if x.None? { return false; }
      ghost var m2 := Img();
      GrowingFacts(sb, m2, i, Extent(off, off / BSIZE));
      PieceMoved(sb, m1, m2, i, off, off, x.value, xp, n, n1, base, |base|);
      var buf := Patched(blocks[x.value], off % BSIZE, xp[n..n + n1]);
      UsedBlock(sb, m2, i, Extent(off, off / BSIZE), off / BSIZE, freeblock, buf);
      blocks := blocks[x.value := buf];
      assert Img() == m2.(blocks := blocks);
      KeptTransitive(m0, m1, Img(), i, 0);
      put := true;
    }

    /** The end of mkfs: the root directory is rounded up, and balloc writes the bitmap, whose first block must
        hold it. The image keeps its invariants exactly if the root did not end on a block boundary. */
    method Finish() returns (ok: bool)
      requires Valid() && ROOTINO in inodes
      modifies this`inodes, this`bits
      ensures ok <==> freeblock < BPB
      ensures inodes == old(inodes)[ROOTINO :=
                        old(inodes[ROOTINO]).(size := (old(inodes[ROOTINO].size) / BSIZE + 1) * BSIZE)]
      ensures ok ==> Owned(sb, Image(blocks, bits, inodes, owner))
      ensures ok ==>
                ((forall j | j in inodes :: inodes[j].size <= MAXBYTES && Mapped(inodes[j], blocks, inodes[j].size))
                 <==> old(inodes[ROOTINO].size) % BSIZE != 0)
      ensures inodes[ROOTINO].size <= MAXBYTES && Mapped(inodes[ROOTINO], blocks, inodes[ROOTINO].size)
         <==> old(inodes[ROOTINO].size) % BSIZE != 0
    {
      hide Addr, Owned, Mapped;
      var s := inodes[ROOTINO].size;
      SizeKeepsOwned(sb, Img(), ROOTINO, (s / BSIZE + 1) * BSIZE);
      RootRoundingIff(inodes[ROOTINO], blocks, s);
      SizeDoesNotMap(inodes[ROOTINO], blocks, (s / BSIZE + 1) * BSIZE);
      inodes := inodes[ROOTINO := inodes[ROOTINO].(size := (s / BSIZE + 1) * BSIZE)];
      assert inodes[ROOTINO].size == (s / BSIZE + 1) * BSIZE;
      assert forall j | j in inodes && j != ROOTINO :: inodes[j] == old(inodes[j]);
      if freeblock >= BPB { return false; }
      bits := Below(sb.size, freeblock);
      ok := true;
    }
  }

  /** The blocks an append of n bytes at off takes at most. */
  function Wanted(off: nat, n: nat): (k: nat) { if n == 0 then 0 else MapBound(off, Touching(off, n)) }

  /** An entry of 16 bytes takes a block only at a block boundary. */
  lemma EntryWanted(k: nat)
    requires k < 32
    ensures Wanted(16 * k, 16) == if k == 0 then 1 else 0
  {
  }

  /** The two ways of counting the bytes left in a block. */
  lemma LeftInBlock(off: nat)
    ensures (off / BSIZE + 1) * BSIZE - off == BSIZE - off % BSIZE
    ensures off / BSIZE >= MAXFILE <==> off >= MAXBYTES
  {
  }

  lemma NothingWanted(off: nat)
    ensures MapBound(off, 0) == 0
  {
  }

  /** A run of mkfs that rounds the root up by a whole block: "." and ".." and thirty files make 32 entries of 16
      bytes, which fill the first block of the root. */
  method RootOnBoundary() returns (mk: Maker, done: bool)
    ensures done && ROOTINO in mk.inodes && mk.inodes[ROOTINO].size == 2 * BSIZE
    ensures !Mapped(mk.inodes[ROOTINO], mk.blocks, mk.inodes[ROOTINO].size)
  {
    hide Mapped, Owned, Sequential, Maker.Valid, Maker.Files, Wanted;
    mk := new Maker(Super(1000, 32, 58, 59));
    var ok, root := mk.Ialloc(T_DIR);
    var entry: seq<Byte> := seq(16, _ => 1);
    var k := 0;
    while k < 32
      invariant 0 <= k <= 32 && fresh(mk) && mk.Valid() && mk.sb == Super(1000, 32, 58, 59)
      invariant ROOTINO in mk.inodes && mk.inodes[ROOTINO].size == 16 * k
      invariant mk.freeblock <= 59 + (if k == 0 then 0 else 1) && mk.freeinode <= 2 + k && mk.freeinode > ROOTINO
    {
      if k >= 2 {
        var made, inum := mk.Ialloc(2);
        assert made && inum != ROOTINO;
      }
      EntryWanted(k);
      var put := mk.Iappend(ROOTINO, entry);
      k := k + 1;
    }
    done := mk.Finish();
  }

  ghost function MetaBelow(n: nat): (owner: map<nat, Owner>)
    ensures forall b: nat :: b in owner <==> b < n
    ensures forall b | b in owner :: owner[b] == Meta
  {
    if n == 0 then map[] else MetaBelow(n - 1)[n - 1 := Meta]
  }

  /** The first free block lies after the metadata, and inode i's indirect block before it. */
  lemma MetaFirst(sb: Super, m: Image, i: nat, ext: nat, freeblock: nat)
    requires Growing(sb, m, i, ext) && Sequential(sb, m.blocks, m.owner, freeblock)
    ensures m.inodes[i].addrs[NDIRECT] != 0 ==> m.inodes[i].addrs[NDIRECT] < freeblock
    ensures 0 < freeblock
  {
    hide Addr, Word, Mapped;
    assert OwnsItsBlocks(m.blocks, m.inodes[i], i, m.owner);
    assert 0 in m.owner;
  }

  /** A mapped block has been handed out. */
  lemma UsedBlock(sb: Super, m: Image, i: nat, ext: nat, f: nat, freeblock: nat, data: Block)
    requires Growing(sb, m, i, ext) && Sequential(sb, m.blocks, m.owner, freeblock) && f < MAXFILE
             && Readable(m.inodes[i], m.blocks)
    requires Addr(m.inodes[i], m.blocks, f) != 0
    ensures Addr(m.inodes[i], m.blocks, f) < freeblock
    ensures Sequential(sb, m.blocks[Addr(m.inodes[i], m.blocks, f) := data], m.owner, freeblock)
  {
    hide Addr, Word, Mapped;
    assert OwnsItsBlocks(m.blocks, m.inodes[i], i, m.owner);
  }

  lemma StaysKept(sb: Super, m: Image, i: nat, ext: nat)
    requires Growing(sb, m, i, ext)
    ensures Kept(m, m, i, ext)
  {
    KeptReflexive(sb, m, i, ext);
  }

  /** Where iappend starts: nothing of xp is in place yet. */
  lemma AppendStart(sb: Super, m: Image, i: nat, xp: seq<Byte>) returns (base: seq<Byte>)
    requires Owned(sb, m) && i in m.inodes
    requires forall j | j in m.inodes :: m.inodes[j].size <= MAXBYTES && Mapped(m.inodes[j], m.blocks, m.inodes[j].size)
    ensures Sound(m) && base == FilesOf(m)[i] && |base| == m.inodes[i].size
    ensures Growing(sb, m, i, |base|) && Kept(m, m, i, 0) && Spliced(m.inodes[i], m.blocks, base, |base|, xp, 0)
  {
    hide Addr, Owned;
    ValidSound(sb, m);
    KeptReflexive(sb, m, i, 0);
    base := FilesOf(m)[i];
  }

  /** Where it ends: the new size is stored, and the file reads what it read followed by xp. */
  lemma AppendEnd(sb: Super, m0: Image, m1: Image, i: nat, off: nat, xp: seq<Byte>, base: seq<Byte>)
    requires i in m1.inodes && m1.inodes[i].size == |base| && off == |base| + |xp| && Growing(sb, m1, i, off)
    requires Sound(m0) && i in m0.inodes && base == FilesOf(m0)[i] && Kept(m0, m1, i, 0)
             && Spliced(m1.inodes[i], m1.blocks, base, |base|, xp, |xp|)
    ensures var m2 := m1.(inodes := m1.inodes[i := m1.inodes[i].(size := off)]);
            && Owned(sb, m2) && (forall j | j in m2.inodes ::
                                   m2.inodes[j].size <= MAXBYTES && Mapped(m2.inodes[j], m2.blocks, m2.inodes[j].size))
            && Sound(m2) && FilesOf(m2) == FilesOf(m0)[i := base + xp] && m2.inodes.Keys == m0.inodes.Keys
  {
    hide Addr, ByteAt, Spliced, Growing, Owned, Mapped, SameBlocks, Readable;
    var m2 := m1.(inodes := m1.inodes[i := m1.inodes[i].(size := off)]);
    StoreSize(sb, m1, i, off);
    SplicedSize(m1.inodes[i], m2.inodes[i], m1.blocks, base, |base|, xp);
    SplicedBytes(m2.inodes[i], m2.blocks, base, |base|, xp);
    assert Splice(base, |base|, xp) == base + xp;
    ValidSound(sb, m2);
    FilesUpdate(m0, m2, i, base + xp);
  }

  /** What is mapped does not depend on the size field. */
  lemma SizeDoesNotMap(ino: Inode, blocks: Device, size: nat)
    requires ino.addrs[NDIRECT] < |blocks|
    ensures Mapped(ino.(size := size), blocks, size) <==> Mapped(ino, blocks, size)
  {
    hide Word;
    assert forall f | 0 <= f < MAXFILE :: Addr(ino.(size := size), blocks, f) == Addr(ino, blocks, f);
  }

  /** mkfs rounds the root directory up to the next block boundary, by a whole block if it is on one
      already: the root then has a hole or is too large, and only then. */
  lemma RootRoundingIff(ino: Inode, blocks: Device, s: nat)
    requires Mapped(ino, blocks, s) && s <= MAXBYTES
    ensures ((s / BSIZE + 1) * BSIZE <= MAXBYTES && Mapped(ino, blocks, (s / BSIZE + 1) * BSIZE)) <==> s % BSIZE != 0
  {
    hide Addr;
    var e := (s / BSIZE + 1) * BSIZE;
    if s % BSIZE != 0 {
      forall f | 0 <= f < MAXFILE ensures f * BSIZE < s <==> f * BSIZE < e { BelowIff(f, s); BelowIff(f, e); }
    } else if s < MAXBYTES {
      BelowIff(s / BSIZE, e);
      assert s / BSIZE * BSIZE == s;
      assert Addr(ino, blocks, s / BSIZE) == 0;
    }
  }
}
