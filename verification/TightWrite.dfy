/** A write that logs as many blocks as filewrite allows for: an image on which the bound of MAXOPBLOCKS is
    reached. */
module TightWrite {
  import opened Common
  import opened Disk
  import opened Inode
  import opened FileSystem
  import BufferCache

  /** Four bitmap blocks, and exactly one free block under each of them. */
  function Layout(): (sb: Super) { Super(16384, 32, 2081, 2085) }

  predicate Spare(b: nat) { b % BPB == BPB - 1 }

  const FILE := 1
  const FILESIZE := 5376         // ten blocks and a half

  /** Every used data block past the file's is the only block of an inode of its own. */
  predicate Other(j: nat) { 2096 <= j < 16384 && !Spare(j) }

  function OtherInode(j: nat): (ino: Inode) { Inode(2, 1, BSIZE, [j] + seq(NDIRECT, _ => 0)) }

  function FileAddrs(): (a: Addrs)
    ensures forall f | 0 <= f <= NDIRECT :: a[f] == if f < 11 then 2085 + f else 0
  {
    seq(NDIRECT + 1, f => if f < 11 then 2085 + f else 0)
  }

  function InodeFor(j: nat): (ino: Inode) { if j == FILE then Inode(2, 1, FILESIZE, FileAddrs()) else OtherInode(j) }

  function OwnerFor(b: nat): (o: Owner) {
    if b < 2085 then Meta else if b < 2096 then Data(FILE, b - 2085) else Data(b, 0)
  }

  function Used(n: nat): (bits: seq<bool>)
    ensures |bits| == n && forall b | 0 <= b < n :: bits[b] == !Spare(b)
  {
    seq(n, b requires 0 <= b < n => !Spare(b))
  }

  function Zeros(n: nat): (d: Device)
    ensures |d| == n && forall b | 0 <= b < n :: d[b] == ZERO_BLOCK
  {
    seq(n, _ => ZERO_BLOCK)
  }

  function Crowded(): (m: Image) {
    Image(Zeros(16384), Used(16384),
          map j | 0 <= j < 16384 && (j == FILE || Other(j)) :: InodeFor(j),
          map b | 0 <= b < 16384 && !Spare(b) :: OwnerFor(b))
  }

  lemma {:induction false} SpareCount(n: nat)
    ensures FreeCount(Used(n)) == n / BPB
  {
    if n > 0 {
      SpareCount(n - 1);
      assert Used(n)[..n - 1] == Used(n - 1);
    }
  }

  lemma InodesMapped(j: nat)
    requires j == FILE || Other(j)
    ensures var ino := InodeFor(j);
            && OwnsItsBlocks(Zeros(16384), ino, j, Crowded().owner) && Mapped(ino, Zeros(16384), ino.size)
            && ino.size <= MAXBYTES
  {
    hide Word;
    var ino := InodeFor(j);
    assert forall f | 0 <= f < MAXFILE :: Addr(ino, Zeros(16384), f) ==
                                          if j == FILE then (if f < 11 then 2085 + f else 0) else if f == 0 then j
                                          else 0;
  }

  lemma CrowdedOk()
    ensures Owned(Layout(), Crowded())
    ensures forall j | j in Crowded().inodes ::
              Crowded().inodes[j].size <= MAXBYTES
              && Mapped(Crowded().inodes[j], Crowded().blocks, Crowded().inodes[j].size)
  {
    hide Word, Addr, OwnsItsBlocks, Mapped;
    var m := Crowded();
    forall j | j in m.inodes
      ensures OwnsItsBlocks(m.blocks, m.inodes[j], j, m.owner) && m.inodes[j].size <= MAXBYTES
              && Mapped(m.inodes[j], m.blocks, m.inodes[j].size)
    {
      InodesMapped(j);
    }
    forall b | b in m.owner && !m.owner[b].Meta? ensures Refers(m.blocks, m.inodes, m.owner[b], b) { BlockReferred(b); }
  }

  lemma BlockReferred(b: nat)
    requires 2085 <= b < 16384 && !Spare(b)
    ensures Refers(Crowded().blocks, Crowded().inodes, OwnerFor(b), b)
  {
    hide Word;
  }

  // ---------------------------------------------------------------- after the write

  /** Where block f of the file, or (14) its indirect block, can be: no other inode has given up its block. */
  predicate Room(b: nat) { 2085 <= b < 2096 || (b < 16384 && Spare(b)) }

  function Rooms(): (r: seq<nat>)
    ensures |r| == 15 && forall b: nat | Room(b) :: b in r
  {
    var r := [2085, 2086, 2087, 2088, 2089, 2090, 2091, 2092, 2093, 2094, 2095, 4095, 8191, 12287, 16383];
    assert forall i | 0 <= i < 11 :: r[i] == 2085 + i;
    assert forall i | 11 <= i < 15 :: r[i] == BPB * (i - 10) - 1;
    assert forall b: nat | Room(b) :: b == if b < 2096 then r[b - 2085] else r[b / BPB + 11];
    r
  }

  /** The image with the file grown to 6912 bytes and every other inode as it was. */
  ghost predicate Grown(m: Image) {
    && Owned(Layout(), m) && FILE in m.inodes && Mapped(m.inodes[FILE], m.blocks, 6912)
    && (forall j: nat | Other(j) :: j in m.inodes && m.inodes[j] == OtherInode(j))
  }

  function Place(m: Image, f: nat): (b: nat)
    requires FILE in m.inodes && m.inodes[FILE].addrs[NDIRECT] < |m.blocks| && f < 15
  {
    if f == 14 then m.inodes[FILE].addrs[NDIRECT] else Addr(m.inodes[FILE], m.blocks, f)
  }

  lemma PlaceInRoom(m: Image, f: nat)
    requires Grown(m) && f < 15
    ensures m.inodes[FILE].addrs[NDIRECT] < |m.blocks|
    ensures var a := Place(m, f);
            a != 0 && a in m.owner && m.owner[a] == (if f == 14 then Indirect(FILE) else Data(FILE, f)) && Room(a)
  {
    hide Word;
    assert OwnsItsBlocks(m.blocks, m.inodes[FILE], FILE, m.owner);
    var a := Place(m, f);
    hide Addr;
    if Other(a) {
      assert OwnsItsBlocks(m.blocks, m.inodes[a], a, m.owner);
      OtherAddr(a, m.blocks);
    }
  }

  lemma OtherAddr(a: nat, blocks: Device)
    requires Other(a) && 0 < |blocks|
    ensures Addr(OtherInode(a), blocks, 0) == a
  {
  }

  lemma InjectFifteen(p: map<nat, nat>, h: set<nat>)
    requires forall f: nat | f < 15 :: f in p && p[f] in h
    requires forall f, g | 0 <= f < 15 && 0 <= g < 15 && f != g :: p[f] != p[g]
    ensures |h| >= 15
  {
    hide BufferCache.Below;
    BufferCache.InjectionGrows(BufferCache.Below(15), h, p);
  }

  /** The file needs all the room there is, so the four spare blocks are taken. */
  lemma SparesTaken(m: Image, x: nat)
    requires Grown(m) && x < 16384 && Spare(x)
    ensures |m.bits| == 16384 && m.bits[x]
  {
    if !m.bits[x] {
      hide Word, Addr;
      hide Rooms;
      var rooms := BufferCache.Listed(Rooms());
      forall f | 0 <= f < 15 ensures Place(m, f) in rooms - {x} { PlaceInRoom(m, f); assert Place(m, f) != x; }
      PlaceInRoom(m, 0);
      var p := map f: nat | f < 15 :: Place(m, f);
      forall f, g | 0 <= f < 15 && 0 <= g < 15 && f != g ensures p[f] != p[g] { PlaceInRoom(m, f); PlaceInRoom(m, g); }
      BufferCache.ListedOnce(Rooms());
      InjectFifteen(p, rooms - {x});
    }
  }

  /** Block f of the file holds a byte that was not there before. */
  lemma DataLogged(m: Image, v: Volume, v': Volume, f: nat, k: nat)
    requires Grown(m) && Journaled(Layout(), v, v') && v.blocks == Zeros(16384) && v'.blocks == m.blocks
    requires f < 14 && k / BSIZE == f && k < MAXBYTES && Readable(m.inodes[FILE], m.blocks)
             && ByteAt(m.inodes[FILE], m.blocks, k) == 1
    ensures Place(m, f) in v'.logged
  {
    hide Word, Addr, Owned, Mapped;
    PlaceInRoom(m, f);
    assert m.blocks[Place(m, f)][k % BSIZE] == 1 && v.blocks[Place(m, f)][k % BSIZE] == 0;
  }

  /** The indirect block names block 12. */
  lemma IndirectLogged(m: Image, v: Volume, v': Volume)
    requires Grown(m) && Journaled(Layout(), v, v') && v.blocks == Zeros(16384) && v'.blocks == m.blocks
    ensures FILE in m.inodes && m.inodes[FILE].addrs[NDIRECT] < |m.blocks| && Place(m, 14) in v'.logged
  {
    hide Word, Owned, Mapped;
    PlaceInRoom(m, 14);
    PlaceInRoom(m, 12);
    ZeroBlockWords();
    var ind := Place(m, 14);
    assert Word(m.blocks[ind], 0) == Place(m, 12) != 0 == Word(v.blocks[ind], 0);
  }

  lemma MapsLogged(m: Image, v: Volume, v': Volume)
    requires Grown(m) && Journaled(Layout(), v, v') && v.bits == Used(16384) && v'.bits == m.bits
    ensures {2081, 2082, 2083, 2084} <= v'.logged
  {
    hide Owned, Mapped, Word, Addr;
    SparesTaken(m, 4095);
    SparesTaken(m, 8191);
    SparesTaken(m, 12287);
    SparesTaken(m, 16383);
    assert Layout().BitBlock(4095) in v'.logged && Layout().BitBlock(8191) in v'.logged;
    assert Layout().BitBlock(12287) in v'.logged && Layout().BitBlock(16383) in v'.logged;
  }

  lemma ExactlyTen(m: Image, v: Volume, v': Volume, extra: set<nat>)
    requires Grown(m) && Journaled(Layout(), v, v') && v.blocks == Zeros(16384) && v.bits == Used(16384)
    requires v'.blocks == m.blocks && v'.bits == m.bits && v'.dinodes == m.inodes
             && Entry(v'.dinodes, FILE) != Entry(v.dinodes, FILE)
    requires Readable(m.inodes[FILE], m.blocks) && forall k | FILESIZE <= k < 6912 ::
               ByteAt(m.inodes[FILE], m.blocks, k) == 1
    requires v'.logged <= extra && |extra| <= 10
    ensures |v'.logged| == 10
  {
    hide Owned, Mapped, Word, Addr, Journaled, ByteAt, Readable;
    DataLogged(m, v, v', 10, 5376);
    DataLogged(m, v, v', 11, 5632);
    DataLogged(m, v, v', 12, 6144);
    DataLogged(m, v, v', 13, 6656);
    IndirectLogged(m, v, v');
    MapsLogged(m, v, v');
    InodeLogged(v, v');
    forall f | 10 <= f < 15 ensures Place(m, f) >= 2085 { PlaceInRoom(m, f); }
    forall f, g | 10 <= f < g < 15 ensures Place(m, f) != Place(m, g) { PlaceInRoom(m, f); PlaceInRoom(m, g); }
    Ten(Place(m, 10), Place(m, 11), Place(m, 12), Place(m, 13), Place(m, 14), v'.logged);
    CardSubset(v'.logged, extra);
  }

  lemma InodeLogged(v: Volume, v': Volume)
    requires Journaled(Layout(), v, v') && Entry(v'.dinodes, FILE) != Entry(v.dinodes, FILE)
    ensures 32 in v'.logged
  {
    assert Layout().InodeBlock(FILE) == 32;
  }

  lemma Ten(a: nat, b: nat, c: nat, d: nat, e: nat, logged: set<nat>)
    requires a >= 2085 && b >= 2085 && c >= 2085 && d >= 2085 && e >= 2085
    requires a != b && a != c && a != d && a != e && b != c && b != d && b != e && c != d && c != e && d != e
    requires {a, b, c, d, e} <= logged && {2081, 2082, 2083, 2084} <= logged && 32 in logged
    ensures |logged| >= 10
  {
    var ten := {a, b, c, d, e} + {2081, 2082, 2083, 2084} + {32};
    assert |{a, b, c, d, e}| == 5;
    assert |ten| == 10;
    CardSubset(ten, logged);
  }

  /** What the contract of writei says of the file. */
  lemma GrownByWrite(m: Image, old_file: seq<Byte>, file: seq<Byte>, src: seq<Byte>)
    requires Owned(Layout(), m) && FILE in m.inodes && |old_file| == FILESIZE && |src| == 1536 && forall k
               | 0 <= k < 1536 :: src[k] == 1
    requires Readable(m.inodes[FILE], m.blocks) && m.inodes[FILE].size == |file| <= MAXBYTES
             && file == Bytes(m.inodes[FILE], m.blocks, |file|)
    requires file == Splice(old_file, FILESIZE, src) && Mapped(m.inodes[FILE], m.blocks, |file|)
    requires m.inodes.Keys == Crowded().inodes.Keys && forall j | j in m.inodes && j != FILE ::
               m.inodes[j] == Crowded().inodes[j]
    ensures Grown(m) && m.inodes[FILE] != Crowded().inodes[FILE]
    ensures forall k | FILESIZE <= k < 6912 :: ByteAt(m.inodes[FILE], m.blocks, k) == 1
  {
    hide Owned, Mapped, ByteAt, Addr;
    assert |file| == 6912;
    assert Crowded().inodes[FILE].size == FILESIZE;
    forall j: nat | Other(j) ensures j in m.inodes && m.inodes[j] == OtherInode(j) { assert j in Crowded().inodes; }
    forall k | FILESIZE <= k < 6912
      ensures ByteAt(m.inodes[FILE], m.blocks, k) == 1 { assert file[k] == src[k - FILESIZE]; }
  }

  lemma CrowdedFile()
    ensures FILE in Crowded().inodes && Crowded().inodes[FILE].size == FILESIZE
  {
  }

  /** The write is unaligned, starts in a direct block and ends in the second indirect one. It logs four data
      blocks, the indirect block, the inode's block and four bitmap blocks. */
  method TenBlocks() returns (fs: FileSys, r: Result)
    ensures r == Ret(1536) && fs.sb == Layout() && |fs.logged| == 10
  {
    hide Owned, Mapped, Addr, Journaled, Spare, InodeFor, OwnerFor;
    CrowdedOk();
    CrowdedFile();
    SpareCount(16384);
    ghost var m := Crowded();
    var m1 := Crowded();
    fs := new FileSys(Layout(), m1.blocks, m1.bits, m1.inodes, m.owner);
    var src: seq<Byte> := seq(1536, _ => 1);
    ghost var extra;
    ghost var old_file := fs.Contents(FILE);
    r, extra := fs.Writei(FILE, src, FILESIZE);
    OwnedReadable(Layout(), fs.Img(), FILE);
    GrownByWrite(fs.Img(), old_file, fs.Contents(FILE), src);
    ChunkCost(FILESIZE, 1536, FILESIZE, 4);
    CardUnion(extra, {32});
    ExactlyTen(fs.Img(), Volume(m.blocks, m.bits, m.inodes, {}), fs.Now(), extra + {32});
  }

  // ---------------------------------------------------------------- an iput that logs more than it reserved

  /** Ten bitmap blocks. */
  function Wide(): (sb: Super) { Super(40960, 32, 33, 43) }

  function Scattered(): (a: Addrs)
    ensures forall f | 0 <= f <= NDIRECT :: a[f] == if f < 10 then BPB * f + BPB - 1 else 0
  {
    seq(NDIRECT + 1, f requires 0 <= f => if f < 10 then BPB * f + BPB - 1 else 0)
  }

  /** One file of ten blocks, one under each bitmap block. */
  function Sparse(): (m: Image) {
    Image(Zeros(40960), seq(40960, b requires 0 <= b => b < 43 || Spare(b)),
          map[FILE := Inode(2, 0, 10 * BSIZE, Scattered())],
          map b | 0 <= b < 40960 && (b < 43 || Spare(b)) :: if b < 43 then Meta else Data(FILE, b / BPB))
  }

  lemma SparseOk()
    ensures Owned(Wide(), Sparse()) && Mapped(Sparse().inodes[FILE], Sparse().blocks, 10 * BSIZE)
  {
    hide Word;
    var m := Sparse();
    var ino := m.inodes[FILE];
    assert forall f | 0 <= f < MAXFILE :: Addr(ino, m.blocks, f) == if f < 10 then BPB * f + BPB - 1 else 0;
    assert OwnsItsBlocks(m.blocks, ino, FILE, m.owner);
    forall b | b in m.owner && !m.owner[b].Meta? ensures Refers(m.blocks, m.inodes, m.owner[b], b) {
      assert b / BPB < 10 && b == BPB * (b / BPB) + BPB - 1;
    }
  }

  lemma SparseMaps()
    ensures MapsOf(Wide(), Sparse().owner, FILE) == {33, 34, 35, 36, 37, 38, 39, 40, 41, 42}
  {
    var owner, maps := Sparse().owner, MapsOf(Wide(), Sparse().owner, FILE);
    forall x | 33 <= x < 43 ensures x in maps {
      var b := BPB * (x - 33) + BPB - 1;
      assert b in owner && owner[b] == Data(FILE, b / BPB) && Wide().BitBlock(b) == x;
    }
  }

  /** iput of this file logs eleven blocks, and end_op's reservation is for ten. */
  method ElevenBlocks() returns (fs: FileSys)
    ensures fs.sb == Wide() && fs.inodes == map[] && |fs.logged| == 11
  {
    hide Owned, Mapped, Addr, MapsOf, Journaled, Spare, Scattered, Sparse;
    SparseOk();
    SparseMaps();
    ghost var m := Sparse();
    var m1 := Sparse();
    SparseFile(m);
    fs := new FileSys(Wide(), m1.blocks, m1.bits, m1.inodes, m.owner);
    fs.Ifree(FILE);
    Eleven(fs.logged);
  }

  lemma SparseFile(m: Image)
    requires m == Sparse()
    ensures m.inodes.Keys == {FILE} && m.inodes[FILE].size == 10 * BSIZE && m.inodes - {FILE} == map[]
  {
  }

  lemma Eleven(logged: set<nat>)
    requires logged == {} + {Wide().InodeBlock(FILE)} + {33, 34, 35, 36, 37, 38, 39, 40, 41, 42}
    ensures |logged| == 11
  {
    assert logged == {32, 33, 34, 35, 36, 37, 38, 39, 40, 41, 42};
  }
}
