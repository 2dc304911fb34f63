/** fs.c's on-disk structures: inodes with direct and indirect block addresses, the free bitmap,
    and who owns each block. */
module Inode {
  import opened Common
  import opened Disk

  const NDIRECT := 12
  const NINDIRECT := 128
  const MAXFILE := 140          // NDIRECT + NINDIRECT
  const BPB := 4096             // bitmap bits per block
  const IPB := 8                // inodes per block
  const T_DIR := 1
  const MAXBYTES := 71680       // MAXFILE * BSIZE

  type Addrs = s: seq<nat> | |s| == NDIRECT + 1 witness seq(NDIRECT + 1, _ => 0)

  /** struct dinode / the copied part of struct inode, for files and directories. */
  datatype Inode = Inode(kind: nat, nlink: int, size: nat, addrs: Addrs)

  /** The super block: the bitmap is the last metadata region. */
  datatype Super = Super(size: nat, inodestart: nat, bmapstart: nat, datastart: nat) {
    predicate Ok() {
      && 0 < inodestart <= bmapstart
      && bmapstart + (size + BPB - 1) / BPB <= datastart <= size < LIMIT32
    }

    /** BBLOCK. */
    function BitBlock(b: nat): (r: nat) { bmapstart + b / BPB }

    /** IBLOCK. */
    function InodeBlock(inum: nat): (r: nat) { inodestart + inum / IPB }
  }

  /** A file system state: block contents, free map, inodes, and each used block's owner. */
  datatype Image = Image(blocks: Device, bits: seq<bool>, inodes: map<nat, Inode>, owner: map<nat, Owner>)

  datatype Owner = Meta | Data(inum: nat, fbn: nat) | Indirect(inum: nat)

  /** The disk address of file block f, 0 if there is none. */
  function Addr(ino: Inode, blocks: Device, f: nat): (a: nat)
    requires f < MAXFILE && ino.addrs[NDIRECT] < |blocks|
  {
    if f < NDIRECT then ino.addrs[f]
    else if ino.addrs[NDIRECT] == 0 then 0
    else Word(blocks[ino.addrs[NDIRECT]], f - NDIRECT)
  }

  /** Set bits are exactly the owned blocks; metadata, data and indirect blocks are disjoint
      because each block has one owner; every owner really refers to its block. */
  ghost predicate Owned(sb: Super, m: Image) {
    && sb.Ok()
    && |m.blocks| == |m.bits| == sb.size
    && (forall b | b in m.owner :: b < sb.size)
    && (forall b | 0 <= b < sb.size :: m.bits[b] <==> b in m.owner)
    && (forall b | 0 <= b < sb.datastart :: b in m.owner && m.owner[b] == Meta)
    && (forall b | b in m.owner && m.owner[b].Meta? :: b < sb.datastart)
    && (forall i | i in m.inodes :: OwnsItsBlocks(m.blocks, m.inodes[i], i, m.owner))
    && (forall b | b in m.owner && !m.owner[b].Meta? :: Refers(m.blocks, m.inodes, m.owner[b], b))
  }

  /** Every address the inode holds is recorded as its own. */
  ghost predicate OwnsItsBlocks(blocks: Device, ino: Inode, i: nat, owner: map<nat, Owner>) {
    var ind := ino.addrs[NDIRECT];
    && ind < |blocks|
    && (ind != 0 ==> ind in owner && owner[ind] == Indirect(i))
    && (forall f | 0 <= f < MAXFILE && Addr(ino, blocks, f) != 0 ::
          Addr(ino, blocks, f) in owner && owner[Addr(ino, blocks, f)] == Data(i, f))
  }

  /** The owner's inode really holds address b at that place. */
  ghost predicate Refers(blocks: Device, inodes: map<nat, Inode>, o: Owner, b: nat)
    requires !o.Meta?
  {
    && o.inum in inodes
    && var ino := inodes[o.inum];
    && ino.addrs[NDIRECT] < |blocks|
    && match o
       case Indirect(_) => ino.addrs[NDIRECT] == b
       case Data(_, f) => f < MAXFILE && Addr(ino, blocks, f) == b
  }

  /** No holes: exactly the file blocks below byte `ext` are mapped. The indirect block exists when
      one of them needs it, and not before the direct blocks are used up. */
  ghost predicate Mapped(ino: Inode, blocks: Device, ext: nat) {
    && ino.addrs[NDIRECT] < |blocks|
    && (ext > NDIRECT * BSIZE ==> ino.addrs[NDIRECT] != 0)
    && (ino.addrs[NDIRECT] != 0 ==> ext >= NDIRECT * BSIZE)
    && (forall f | 0 <= f < MAXFILE :: Addr(ino, blocks, f) != 0 <==> f * BSIZE < ext)
  }

  /** Addresses of an inode depend only on the inode and its indirect block. */
  lemma AddrFrame(ino: Inode, blocks: Device, blocks': Device)
    requires ino.addrs[NDIRECT] < |blocks| == |blocks'|
    requires ino.addrs[NDIRECT] == 0 || blocks'[ino.addrs[NDIRECT]] == blocks[ino.addrs[NDIRECT]]
    ensures forall f | 0 <= f < MAXFILE :: Addr(ino, blocks', f) == Addr(ino, blocks, f)
  {
    hide Word;
  }

  /** Byte k of a file. */
  function ByteAt(ino: Inode, blocks: Device, k: nat): (x: Byte)
    requires k < MAXBYTES && ino.addrs[NDIRECT] < |blocks| && Addr(ino, blocks, k / BSIZE) < |blocks|
  {
    blocks[Addr(ino, blocks, k / BSIZE)][k % BSIZE]
  }

  ghost predicate Readable(ino: Inode, blocks: Device) {
    && ino.addrs[NDIRECT] < |blocks|
    && (forall f | 0 <= f < MAXFILE :: Addr(ino, blocks, f) < |blocks|)
  }

  /** The first ext bytes of a file as a byte string. */
  ghost function Bytes(ino: Inode, blocks: Device, ext: nat): (s: seq<Byte>)
    requires Readable(ino, blocks) && ext <= MAXBYTES
    ensures |s| == ext
    ensures forall k | 0 <= k < ext :: s[k] == ByteAt(ino, blocks, k)
  {
    seq(ext, k requires 0 <= k < ext && Readable(ino, blocks) => ByteAt(ino, blocks, k))
  }

  lemma OwnedReadable(sb: Super, m: Image, i: nat)
    requires Owned(sb, m) && i in m.inodes
    ensures Readable(m.inodes[i], m.blocks)
  {
    hide Word;
    assert OwnsItsBlocks(m.blocks, m.inodes[i], i, m.owner);
  }

  /** The file blocks below byte `ext` have the same addresses and contents in both states. */
  ghost predicate SameBlocks(ino: Inode, blocks: Device, ino': Inode, blocks': Device, ext: nat) {
    && Readable(ino, blocks) && Readable(ino', blocks')
    && (forall f | 0 <= f < MAXFILE && f * BSIZE < ext ::
          && Addr(ino', blocks', f) == Addr(ino, blocks, f)
          && blocks'[Addr(ino', blocks', f)] == blocks[Addr(ino, blocks, f)])
  }

  // ---------------------------------------------------------------- allocation steps

  /** Overwriting a block that is nobody's indirect block moves no address. */
  lemma OverwriteKeepsOwned(sb: Super, m: Image, b: nat, data: Block)
    requires Owned(sb, m) && b < sb.size
    requires b !in m.owner || !m.owner[b].Indirect?
    ensures Owned(sb, m.(blocks := m.blocks[b := data]))
    ensures forall i | i in m.inodes :: Readable(m.inodes[i], m.blocks)
    ensures forall i, f | i in m.inodes && 0 <= f < MAXFILE ::
              Addr(m.inodes[i], m.blocks[b := data], f) == Addr(m.inodes[i], m.blocks, f)
  {
    hide Addr, Word;
    var blocks' := m.blocks[b := data];
    forall i | i in m.inodes
      ensures OwnsItsBlocks(blocks', m.inodes[i], i, m.owner)
      ensures Readable(m.inodes[i], m.blocks)
      ensures forall f | 0 <= f < MAXFILE :: Addr(m.inodes[i], blocks', f) == Addr(m.inodes[i], m.blocks, f)
    {
      assert OwnsItsBlocks(m.blocks, m.inodes[i], i, m.owner);
      AddrFrame(m.inodes[i], m.blocks, blocks');
    }
    forall o | o in m.owner && !m.owner[o].Meta? ensures Refers(blocks', m.inodes, m.owner[o], o) {
      assert Refers(m.blocks, m.inodes, m.owner[o], o);
    }
  }

  function WithAddr(ino: Inode, k: nat, b: nat): (r: Inode)
    requires k <= NDIRECT
  {
    ino.(addrs := ino.addrs[k := b])
  }

  /** A fresh block becomes direct block f of inode i. */
  function LinkDirect(m: Image, i: nat, f: nat, b: nat): (r: Image)
    requires i in m.inodes && f < NDIRECT && b < |m.bits|
  {
    m.(bits := m.bits[b := true], inodes := m.inodes[i := WithAddr(m.inodes[i], f, b)],
    owner := m.owner[b := Data(i, f)])
  }

  /** A fresh block becomes the indirect block of inode i. */
  function LinkIndirect(m: Image, i: nat, b: nat): (r: Image)
    requires i in m.inodes && b < |m.bits|
  {
    m.(bits := m.bits[b := true], inodes := m.inodes[i := WithAddr(m.inodes[i], NDIRECT, b)],
    owner := m.owner[b := Indirect(i)])
  }

  /** A fresh block is entered in inode i's indirect block as file block f. */
  function LinkEntry(m: Image, i: nat, f: nat, b: nat): (r: Image)
    requires i in m.inodes && NDIRECT <= f < MAXFILE && b < |m.bits| && b < LIMIT32
    requires m.inodes[i].addrs[NDIRECT] < |m.blocks|
  {
    var ind := m.inodes[i].addrs[NDIRECT];
    m.(blocks := m.blocks[ind := SetWord(m.blocks[ind], f - NDIRECT, b)], bits := m.bits[b := true],
    owner := m.owner[b := Data(i, f)])
  }

  /** Ownership survives a change of image that re-links only inode i and gives block b a new owner. */
  lemma LinkKeepsOwned(sb: Super, m: Image, m': Image, i: nat, b: nat, o: Owner)
    requires Owned(sb, m) && i in m.inodes && b < sb.size && b !in m.owner && !o.Meta? && o.inum == i
    requires m'.bits == m.bits[b := true] && m'.owner == m.owner[b := o] && |m'.blocks| == |m.blocks|
    requires m'.inodes.Keys == m.inodes.Keys
    requires forall j | j in m.inodes && j != i :: m'.inodes[j] == m.inodes[j]
    requires forall j | j in m.inodes && j != i :: Readable(m.inodes[j], m.blocks)
    requires forall j, f | j in m.inodes && j != i && 0 <= f < MAXFILE ::
               Addr(m.inodes[j], m'.blocks, f) == Addr(m.inodes[j], m.blocks, f)
    requires OwnsItsBlocks(m'.blocks, m'.inodes[i], i, m'.owner)
    requires Refers(m'.blocks, m'.inodes, o, b)
    requires forall x | x in m.owner && !m.owner[x].Meta? && m.owner[x].inum == i ::
               Refers(m'.blocks, m'.inodes, m.owner[x], x)
    ensures Owned(sb, m')
  {
    hide Addr, OwnsItsBlocks, Readable;
    forall j | j in m'.inodes ensures OwnsItsBlocks(m'.blocks, m'.inodes[j], j, m'.owner) {
      if j != i { StillOwns(m.blocks, m'.blocks, m.inodes[j], j, m.owner, b, o); }
    }
    forall x | x in m'.owner && !m'.owner[x].Meta? ensures Refers(m'.blocks, m'.inodes, m'.owner[x], x) {
      if x != b && m.owner[x].inum != i { StillRefers(m, m', m.owner[x], x); }
    }
  }

  lemma StillOwns(blocks: Device, blocks': Device, ino: Inode, j: nat, owner: map<nat, Owner>, b: nat, o: Owner)
    requires OwnsItsBlocks(blocks, ino, j, owner) && Readable(ino, blocks) && |blocks'| == |blocks| && b !in owner
    requires forall f | 0 <= f < MAXFILE :: Addr(ino, blocks', f) == Addr(ino, blocks, f)
    ensures OwnsItsBlocks(blocks', ino, j, owner[b := o])
  {
    hide Addr;
  }

  lemma StillRefers(m: Image, m': Image, o: Owner, x: nat)
    requires !o.Meta? && Refers(m.blocks, m.inodes, o, x) && |m'.blocks| == |m.blocks|
    requires o.inum in m'.inodes && m'.inodes[o.inum] == m.inodes[o.inum] && Readable(m.inodes[o.inum], m.blocks)
    requires forall f | 0 <= f < MAXFILE :: Addr(m.inodes[o.inum], m'.blocks, f) == Addr(m.inodes[o.inum], m.blocks, f)
    ensures Refers(m'.blocks, m'.inodes, o, x)
  {
    hide Addr;
  }

  lemma DirectAddr(ino: Inode, blocks: Device, f: nat, b: nat)
    requires ino.addrs[NDIRECT] < |blocks| && f < NDIRECT
    ensures forall g | 0 <= g < MAXFILE ::
              Addr(WithAddr(ino, f, b), blocks, g) == if g == f then b else Addr(ino, blocks, g)
    ensures Addr(ino, blocks, f) == ino.addrs[f]
  {
    hide Word;
  }

  lemma LinkDirectKeeps(sb: Super, m: Image, i: nat, f: nat, b: nat)
    requires Owned(sb, m) && i in m.inodes && f < NDIRECT && m.inodes[i].addrs[f] == 0
    requires b < sb.size && b !in m.owner
    ensures b != 0 && Owned(sb, LinkDirect(m, i, f, b))
    ensures Readable(m.inodes[i], m.blocks)
    ensures forall g | 0 <= g < MAXFILE ::
              Addr(WithAddr(m.inodes[i], f, b), m.blocks, g) == if g == f then b else Addr(m.inodes[i], m.blocks, g)
  {
    hide Addr, Readable;
    var m' := LinkDirect(m, i, f, b);
    assert OwnsItsBlocks(m.blocks, m.inodes[i], i, m.owner);
    DirectAddr(m.inodes[i], m.blocks, f, b);
    forall j | j in m.inodes ensures Readable(m.inodes[j], m.blocks) { OwnedReadable(sb, m, j); }
    forall x | x in m.owner && !m.owner[x].Meta? && m.owner[x].inum == i
      ensures Refers(m'.blocks, m'.inodes, m.owner[x], x) {
      assert Refers(m.blocks, m.inodes, m.owner[x], x);
    }
    LinkKeepsOwned(sb, m, m', i, b, Data(i, f));
  }

  lemma LinkIndirectKeeps(sb: Super, m: Image, i: nat, b: nat)
    requires Owned(sb, m) && i in m.inodes && m.inodes[i].addrs[NDIRECT] == 0
    requires b < sb.size && b !in m.owner && m.blocks[b] == ZERO_BLOCK
    ensures b != 0 && Owned(sb, LinkIndirect(m, i, b))
    ensures Readable(m.inodes[i], m.blocks)
    ensures forall g | 0 <= g < MAXFILE ::
              Addr(WithAddr(m.inodes[i], NDIRECT, b), m.blocks, g) == Addr(m.inodes[i], m.blocks, g)
  {
    ZeroBlockWords();
    hide Word;
    var m' := LinkIndirect(m, i, b);
    assert OwnsItsBlocks(m.blocks, m.inodes[i], i, m.owner);
    assert forall g | 0 <= g < MAXFILE :: Addr(m'.inodes[i], m.blocks, g) == Addr(m.inodes[i], m.blocks, g);
    forall j | j in m.inodes ensures Readable(m.inodes[j], m.blocks) { OwnedReadable(sb, m, j); }
    forall x | x in m.owner && !m.owner[x].Meta? && m.owner[x].inum == i
      ensures Refers(m'.blocks, m'.inodes, m.owner[x], x) {
      assert Refers(m.blocks, m.inodes, m.owner[x], x);
    }
    LinkKeepsOwned(sb, m, m', i, b, Indirect(i));
  }

  lemma LinkEntryKeeps(sb: Super, m: Image, i: nat, f: nat, b: nat)
    requires Owned(sb, m) && i in m.inodes && NDIRECT <= f < MAXFILE
    requires var ind := m.inodes[i].addrs[NDIRECT]; 0 != ind < |m.blocks| && Word(m.blocks[ind], f - NDIRECT) == 0
    requires b < sb.size && b !in m.owner
    ensures b != 0 && Owned(sb, LinkEntry(m, i, f, b))
    ensures forall j | j in m.inodes :: Readable(m.inodes[j], m.blocks)
    ensures forall g | 0 <= g < MAXFILE ::
              Addr(m.inodes[i], LinkEntry(m, i, f, b).blocks, g) == if g == f then b else Addr(m.inodes[i], m.blocks, g)
    ensures forall j, g | j in m.inodes && j != i && 0 <= g < MAXFILE ::
              Addr(m.inodes[j], LinkEntry(m, i, f, b).blocks, g) == Addr(m.inodes[j], m.blocks, g)
  {
    hide Word, SetWord;
    var m', ind := LinkEntry(m, i, f, b), m.inodes[i].addrs[NDIRECT];
    assert OwnsItsBlocks(m.blocks, m.inodes[i], i, m.owner);
    assert forall g | 0 <= g < MAXFILE ::
        Addr(m.inodes[i], m'.blocks, g) == if g == f then b else Addr(m.inodes[i], m.blocks, g);
    forall j | j in m.inodes
      ensures Readable(m.inodes[j], m.blocks)
      ensures j != i ==> forall g | 0 <= g < MAXFILE ::
                  Addr(m.inodes[j], m'.blocks, g) == Addr(m.inodes[j], m.blocks, g)
    {
      OwnedReadable(sb, m, j);
      assert OwnsItsBlocks(m.blocks, m.inodes[j], j, m.owner);
      if j != i { AddrFrame(m.inodes[j], m.blocks, m'.blocks); }
    }
    forall x | x in m.owner && !m.owner[x].Meta? && m.owner[x].inum == i
      ensures Refers(m'.blocks, m'.inodes, m.owner[x], x) {
      assert Refers(m.blocks, m.inodes, m.owner[x], x);
    }
    LinkKeepsOwned(sb, m, m', i, b, Data(i, f));
  }

  // ---------------------------------------------------------------- growing a file

  /** The invariant while inode i is mapped up to byte ext and every other file up to its size. */
  ghost predicate Growing(sb: Super, m: Image, i: nat, ext: nat) {
    && Owned(sb, m)
    && i in m.inodes && m.inodes[i].size <= ext <= MAXBYTES && Mapped(m.inodes[i], m.blocks, ext)
    && (forall j | j in m.inodes && j != i ::
          m.inodes[j].size <= MAXBYTES && Mapped(m.inodes[j], m.blocks, m.inodes[j].size))
  }

  lemma GrowingFacts(sb: Super, m: Image, i: nat, ext: nat)
    requires Growing(sb, m, i, ext)
    ensures i in m.inodes && Readable(m.inodes[i], m.blocks) && sb.Ok() && |m.blocks| == |m.bits| == sb.size
    ensures m.inodes[i].size <= ext <= MAXBYTES && Mapped(m.inodes[i], m.blocks, ext)
  {
    OwnedReadable(sb, m, i);
  }

  /** Everything but the addresses of file i is as before, and of file i its first ext bytes. */
  ghost predicate Kept(m: Image, m': Image, i: nat, ext: nat) {
    && i in m.inodes && m'.inodes.Keys == m.inodes.Keys
    && (forall j | j in m.inodes && j != i :: m'.inodes[j] == m.inodes[j])
    && m'.inodes[i] == m.inodes[i].(addrs := m'.inodes[i].addrs)
    && SameBlocks(m.inodes[i], m.blocks, m'.inodes[i], m'.blocks, ext)
    && (forall j | j in m.inodes && j != i ::
          SameBlocks(m.inodes[j], m.blocks, m.inodes[j], m'.blocks, m.inodes[j].size))
  }

  lemma KeptTransitive(m: Image, m1: Image, m2: Image, i: nat, ext: nat)
    requires Kept(m, m1, i, ext) && Kept(m1, m2, i, ext)
    ensures Kept(m, m2, i, ext)
  {
    hide Addr, Word;
    forall j | j in m.inodes && j != i
      ensures SameBlocks(m.inodes[j], m.blocks, m.inodes[j], m2.blocks, m.inodes[j].size) {
      assert SameBlocks(m.inodes[j], m.blocks, m.inodes[j], m1.blocks, m.inodes[j].size);
      assert SameBlocks(m1.inodes[j], m1.blocks, m1.inodes[j], m2.blocks, m1.inodes[j].size);
    }
  }

  lemma KeptReflexive(sb: Super, m: Image, i: nat, ext: nat)
    requires Owned(sb, m) && i in m.inodes
    ensures Kept(m, m, i, ext)
  {
    hide Addr, Word;
    forall j | j in m.inodes ensures Readable(m.inodes[j], m.blocks) { OwnedReadable(sb, m, j); }
  }

  lemma MappedFrame(ino: Inode, blocks: Device, blocks': Device, ext: nat)
    requires Mapped(ino, blocks, ext) && |blocks'| == |blocks|
    requires forall f | 0 <= f < MAXFILE :: Addr(ino, blocks', f) == Addr(ino, blocks, f)
    ensures Mapped(ino, blocks', ext)
  {
    hide Addr;
  }

  /** A file whose addresses and mapped blocks are unchanged is unchanged. */
  lemma FileKept(sb: Super, m: Image, m': Image, j: nat, ext: nat)
    requires Owned(sb, m) && Owned(sb, m') && j in m.inodes && j in m'.inodes && m'.inodes[j] == m.inodes[j]
    requires Mapped(m.inodes[j], m.blocks, ext)
    requires forall f | 0 <= f < MAXFILE :: Addr(m.inodes[j], m'.blocks, f) == Addr(m.inodes[j], m.blocks, f)
    requires Readable(m.inodes[j], m.blocks)
    requires forall f | 0 <= f < MAXFILE && Addr(m.inodes[j], m.blocks, f) != 0 ::
               m'.blocks[Addr(m.inodes[j], m.blocks, f)] == m.blocks[Addr(m.inodes[j], m.blocks, f)]
    ensures Mapped(m'.inodes[j], m'.blocks, ext)
    ensures SameBlocks(m.inodes[j], m.blocks, m'.inodes[j], m'.blocks, ext)
  {
    hide Addr;
    OwnedReadable(sb, m', j);
    MappedFrame(m.inodes[j], m.blocks, m'.blocks, ext);
  }

  /** Zeroing a block nobody owns is invisible. */
  lemma ZeroFresh(sb: Super, m: Image, i: nat, ext: nat, b: nat)
    requires Growing(sb, m, i, ext) && b < sb.size && b !in m.owner
    ensures Growing(sb, m.(blocks := m.blocks[b := ZERO_BLOCK]), i, ext)
    ensures Kept(m, m.(blocks := m.blocks[b := ZERO_BLOCK]), i, ext)
  {
    hide Addr, Word;
    OverwriteKeepsOwned(sb, m, b, ZERO_BLOCK);
    var m' := m.(blocks := m.blocks[b := ZERO_BLOCK]);
    forall j | j in m.inodes
      ensures Mapped(m.inodes[j], m'.blocks, if j == i then ext else m.inodes[j].size)
      ensures SameBlocks(m.inodes[j], m.blocks, m.inodes[j], m'.blocks, if j == i then ext else m.inodes[j].size)
    {
      assert OwnsItsBlocks(m.blocks, m.inodes[j], j, m.owner);
      FileKept(sb, m, m', j, if j == i then ext else m.inodes[j].size);
    }
  }

  /** Re-linking inode i without touching a block leaves every other file alone. */
  lemma OthersKept(sb: Super, m: Image, m': Image, i: nat, ext: nat)
    requires Growing(sb, m, i, ext) && m'.blocks == m.blocks && i in m'.inodes
             && m'.inodes == m.inodes[i := m'.inodes[i]]
    ensures forall j | j in m.inodes && j != i ::
              && m'.inodes[j] == m.inodes[j] && m'.inodes[j].size <= MAXBYTES
              && Mapped(m'.inodes[j], m'.blocks, m'.inodes[j].size)
              && SameBlocks(m.inodes[j], m.blocks, m.inodes[j], m'.blocks, m.inodes[j].size)
  {
    hide Addr, Owned, Mapped;
    forall j | j in m.inodes && j != i
      ensures SameBlocks(m.inodes[j], m.blocks, m.inodes[j], m'.blocks, m.inodes[j].size) {
      OwnedReadable(sb, m, j);
    }
  }

  lemma GrowDirectKeeps(sb: Super, m: Image, i: nat, ext: nat, f: nat, b: nat)
    requires Growing(sb, m, i, ext) && f < NDIRECT && f * BSIZE == ext
    requires b < sb.size && b !in m.owner
    ensures b < |m.bits| && i in m.inodes
    ensures var m' := LinkDirect(m, i, f, b);
            && Owned(sb, m') && Readable(m.inodes[i], m.blocks) && Readable(m'.inodes[i], m'.blocks)
            && Mapped(m'.inodes[i], m'.blocks, ext + 1)
            && SameBlocks(m.inodes[i], m.blocks, m'.inodes[i], m'.blocks, ext)
            && Addr(m'.inodes[i], m'.blocks, f) == b
  {
    hide OwnsItsBlocks;
    assert Addr(m.inodes[i], m.blocks, f) == 0;
    LinkDirectKeeps(sb, m, i, f, b);
    OwnedReadable(sb, LinkDirect(m, i, f, b), i);
  }

  lemma GrowDirect(sb: Super, m: Image, i: nat, ext: nat, f: nat, b: nat)
    requires Growing(sb, m, i, ext) && f < NDIRECT && f * BSIZE == ext
    requires b < sb.size && b !in m.owner
    ensures var m' := LinkDirect(m, i, f, b);
            && Growing(sb, m', i, ext + 1) && Kept(m, m', i, ext)
            && m'.inodes[i].addrs[NDIRECT] < |m'.blocks| && Addr(m'.inodes[i], m'.blocks, f) == b
  {
    hide Addr, Owned, Mapped, SameBlocks;
    GrowDirectKeeps(sb, m, i, ext, f, b);
    OthersKept(sb, m, LinkDirect(m, i, f, b), i, ext);
  }

  lemma GrowIndirectKeeps(sb: Super, m: Image, i: nat, ext: nat, b: nat)
    requires Growing(sb, m, i, ext) && ext == NDIRECT * BSIZE && m.inodes[i].addrs[NDIRECT] == 0
    requires b < sb.size && b !in m.owner && m.blocks[b] == ZERO_BLOCK
    ensures b < |m.bits| && i in m.inodes
    ensures var m' := LinkIndirect(m, i, b);
            && Owned(sb, m') && Mapped(m'.inodes[i], m'.blocks, ext)
            && SameBlocks(m.inodes[i], m.blocks, m'.inodes[i], m'.blocks, ext)
  {
    hide Addr, OwnsItsBlocks;
    LinkIndirectKeeps(sb, m, i, b);
    OwnedReadable(sb, LinkIndirect(m, i, b), i);
  }

  lemma GrowIndirect(sb: Super, m: Image, i: nat, ext: nat, b: nat)
    requires Growing(sb, m, i, ext) && ext == NDIRECT * BSIZE && m.inodes[i].addrs[NDIRECT] == 0
    requires b < sb.size && b !in m.owner && m.blocks[b] == ZERO_BLOCK
    ensures var m' := LinkIndirect(m, i, b); Growing(sb, m', i, ext) && Kept(m, m', i, ext)
  {
    hide Addr, Owned, Mapped, SameBlocks;
    GrowIndirectKeeps(sb, m, i, ext, b);
    OthersKept(sb, m, LinkIndirect(m, i, b), i, ext);
  }

  lemma GrowEntry(sb: Super, m: Image, i: nat, ext: nat, f: nat, b: nat)
    requires Growing(sb, m, i, ext) && NDIRECT <= f < MAXFILE && f * BSIZE == ext && m.inodes[i].addrs[NDIRECT] != 0
    requires b < sb.size && b !in m.owner
    ensures var m' := LinkEntry(m, i, f, b);
            && Growing(sb, m', i, ext + 1) && Kept(m, m', i, ext)
            && m'.inodes[i].addrs[NDIRECT] < |m'.blocks| && Addr(m'.inodes[i], m'.blocks, f) == b
  {
    var m' := LinkEntry(m, i, f, b);
    assert Addr(m.inodes[i], m.blocks, f) == 0;
    LinkEntryKeeps(sb, m, i, f, b);
    hide Addr, Word, SetWord, LinkEntry;
    assert m'.inodes == m.inodes;
    forall j | j in m.inodes && j != i
      ensures Mapped(m'.inodes[j], m'.blocks, m.inodes[j].size)
      ensures SameBlocks(m.inodes[j], m.blocks, m.inodes[j], m'.blocks, m.inodes[j].size)
    {
      EntryKeepsData(sb, m, i, f, b, j);
      FileKept(sb, m, m', j, m.inodes[j].size);
    }
    EntryKeepsData(sb, m, i, f, b, i);
    OwnedReadable(sb, m', i);
    assert SameBlocks(m.inodes[i], m.blocks, m'.inodes[i], m'.blocks, ext);
    assert Mapped(m'.inodes[i], m'.blocks, ext + 1);
  }

  /** Entering a block in an indirect block changes no data block. */
  lemma EntryKeepsData(sb: Super, m: Image, i: nat, f: nat, b: nat, j: nat)
    requires Owned(sb, m) && i in m.inodes && j in m.inodes && NDIRECT <= f < MAXFILE && b < sb.size
    requires var ind := m.inodes[i].addrs[NDIRECT]; 0 != ind < |m.blocks|
    ensures Readable(m.inodes[j], m.blocks)
    ensures forall g | 0 <= g < MAXFILE && Addr(m.inodes[j], m.blocks, g) != 0 ::
              LinkEntry(m, i, f, b).blocks[Addr(m.inodes[j], m.blocks, g)] == m.blocks[Addr(m.inodes[j], m.blocks, g)]
  {
    hide Addr, Word, SetWord;
    OwnedReadable(sb, m, j);
    assert OwnsItsBlocks(m.blocks, m.inodes[j], j, m.owner);
    assert OwnsItsBlocks(m.blocks, m.inodes[i], i, m.owner);
  }

  // ---------------------------------------------------------------- file contents

  /** Part-way through writing src at off0 over a file that read `base`: the first `done` bytes are in. */
  ghost predicate Spliced(ino: Inode, blocks: Device, base: seq<Byte>, off0: nat, src: seq<Byte>, done: nat) {
    && Readable(ino, blocks) && off0 <= |base| <= MAXBYTES && done <= |src| && off0 + done <= MAXBYTES
    && (forall k | 0 <= k < |base| && !(off0 <= k < off0 + done) :: ByteAt(ino, blocks, k) == base[k])
    && (forall k | off0 <= k < off0 + done :: ByteAt(ino, blocks, k) == src[k - off0])
  }

  /** Blocks that keep their place and contents keep their bytes. */
  lemma SplicedKept(ino: Inode, blocks: Device, ino': Inode, blocks': Device, base: seq<Byte>, off0: nat,
                    src: seq<Byte>, done: nat, ext: nat)
    requires Spliced(ino, blocks, base, off0, src, done) && |base| <= ext && off0 + done <= ext
    requires SameBlocks(ino, blocks, ino', blocks', ext)
    ensures Spliced(ino', blocks', base, off0, src, done)
  {
    hide Addr;
    forall k | 0 <= k < ext && k < MAXBYTES ensures ByteAt(ino', blocks', k) == ByteAt(ino, blocks, k) {
      assert k / BSIZE * BSIZE <= k;
    }
  }

  lemma SameBlocksSameBytes(ino: Inode, blocks: Device, ino': Inode, blocks': Device, ext: nat)
    requires SameBlocks(ino, blocks, ino', blocks', ext) && ext <= MAXBYTES
    ensures Bytes(ino', blocks', ext) == Bytes(ino, blocks, ext)
  {
    hide Addr;
  }

  /** The block that holds byte off, after mm bytes of src are moved into it at off % BSIZE. */
  function Patched(old_block: Block, o: nat, piece: seq<Byte>): (r: Block)
    requires o + |piece| <= BSIZE
    ensures forall k | 0 <= k < BSIZE :: r[k] == if o <= k < o + |piece| then piece[k - o] else old_block[k]
  {
    old_block[..o] + piece + old_block[o + |piece|..]
  }

  /** Overwriting data block f of file i. */
  lemma OverwriteData(sb: Super, m: Image, i: nat, ext: nat, f: nat, data: Block)
    requires Growing(sb, m, i, ext) && f < MAXFILE && Addr(m.inodes[i], m.blocks, f) != 0
    requires Readable(m.inodes[i], m.blocks)
    ensures var a := Addr(m.inodes[i], m.blocks, f);
            var m' := m.(blocks := m.blocks[a := data]);
            && Growing(sb, m', i, ext) && Kept(m, m', i, 0)
            && (forall g | 0 <= g < MAXFILE :: Addr(m.inodes[i], m'.blocks, g) == Addr(m.inodes[i], m.blocks, g))
            && (forall g | 0 <= g < MAXFILE && g != f && Addr(m.inodes[i], m.blocks, g) != 0 ::
                  Addr(m.inodes[i], m.blocks, g) != a)
  {
    hide Addr, Word;
    var a := Addr(m.inodes[i], m.blocks, f);
    var m' := m.(blocks := m.blocks[a := data]);
    assert OwnsItsBlocks(m.blocks, m.inodes[i], i, m.owner);
    OverwriteKeepsOwned(sb, m, a, data);
    forall j | j in m.inodes && j != i
      ensures Mapped(m.inodes[j], m'.blocks, m.inodes[j].size)
      ensures SameBlocks(m.inodes[j], m.blocks, m.inodes[j], m'.blocks, m.inodes[j].size)
    {
      assert OwnsItsBlocks(m.blocks, m.inodes[j], j, m.owner);
      FileKept(sb, m, m', j, m.inodes[j].size);
    }
    OwnedReadable(sb, m', i);
    MappedFrame(m.inodes[i], m.blocks, m'.blocks, ext);
  }

  /** One iteration of writei's loop at the byte level. */
  lemma SplicedStep(ino: Inode, blocks: Device, blocks': Device, base: seq<Byte>, off0: nat, src: seq<Byte>,
                    done: nat, piece: nat, ext: nat)
    requires Spliced(ino, blocks, base, off0, src, done) && done < |src|
    requires |base| <= ext && off0 + done <= ext && forall g | 0 <= g < MAXFILE && g * BSIZE < ext ::
               Addr(ino, blocks, g) != 0
    requires 0 < piece <= |src| - done && (off0 + done) % BSIZE + piece <= BSIZE && off0 + done + piece <= MAXBYTES
    requires var f := (off0 + done) / BSIZE;
             var a := Addr(ino, blocks, f);
             && a != 0 && Readable(ino, blocks')
             && blocks' == blocks[a := Patched(blocks[a], (off0 + done) % BSIZE, src[done..done + piece])]
             && (forall g | 0 <= g < MAXFILE :: Addr(ino, blocks', g) == Addr(ino, blocks, g))
             && (forall g | 0 <= g < MAXFILE && g != f && Addr(ino, blocks, g) != 0 :: Addr(ino, blocks, g) != a)
    ensures Spliced(ino, blocks', base, off0, src, done + piece)
  {
    hide Addr;
    var off := off0 + done;
    var f, o := off / BSIZE, off % BSIZE;
    forall k | 0 <= k < MAXBYTES && (k < |base| || off0 <= k < off + piece)
      ensures ByteAt(ino, blocks', k) == if off <= k < off + piece then src[k - off0] else ByteAt(ino, blocks, k)
    {
      SameBlockIff(off, k, piece);
      if k / BSIZE == f {
        assert blocks'[Addr(ino, blocks', f)] == Patched(blocks[Addr(ino, blocks, f)], o, src[done..done + piece]);
      } else {
        assert k / BSIZE * BSIZE < ext;
        assert Addr(ino, blocks, k / BSIZE) != Addr(ino, blocks, f);
      }
    }
  }

  /** Positions inside one block. */
  lemma SameBlockIff(off: nat, k: nat, piece: nat)
    requires off % BSIZE + piece <= BSIZE
    ensures off <= k < off + piece ==> k / BSIZE == off / BSIZE
    ensures k / BSIZE == off / BSIZE ==> k - off == k % BSIZE - off % BSIZE
    ensures k / BSIZE * BSIZE <= k
  {
  }

  /** Two extents that end in the same block map the same blocks. */
  lemma GrowingRound(sb: Super, m: Image, i: nat, e1: nat, e2: nat)
    requires Growing(sb, m, i, e1) && m.inodes[i].size <= e2 <= MAXBYTES && e1 <= e2
    requires (e1 + BSIZE - 1) / BSIZE == (e2 + BSIZE - 1) / BSIZE
    ensures Growing(sb, m, i, e2)
  {
    hide Addr;
    forall f | 0 <= f ensures f * BSIZE < e1 <==> f * BSIZE < e2 { BelowIff(f, e1); BelowIff(f, e2); }
    assert NDIRECT * BSIZE < e1 <==> NDIRECT * BSIZE < e2;
  }

  lemma BelowIff(f: nat, e: nat)
    ensures f * BSIZE < e <==> f < (e + BSIZE - 1) / BSIZE
  {
  }

  lemma KeptWeaken(m: Image, m': Image, i: nat, ext: nat, ext': nat)
    requires Kept(m, m', i, ext) && ext' <= ext
    ensures Kept(m, m', i, ext')
  {
    hide Addr;
  }
}
