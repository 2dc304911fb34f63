/** The file system across a crash: what log.c recovers is a volume on which every block still has one owner and no
    file a hole. Joins the operations of fs.c, which change no block they have not logged, with group commit. */
module Recovery {
  import opened Common
  import opened Disk
  import opened Inode
  import opened FileSystem
  import opened Crash
  import opened GroupCommit

  // ---------------------------------------------------------------- what the blocks of a device mean

  function Mask(k: nat): (m: nat)
    ensures m > 0
  {
    if k == 0 then 1 else 2 * Mask(k - 1)
  }

  /** Bit k of a bitmap block. */
  predicate BitIn(block: Block, k: nat)
    requires k < BPB
  {
    block[k / 8] / Mask(k % 8) % 2 == 1
  }

  /** struct dinode in place k of an inode block, if its type is not 0: type, major, minor and nlink are shorts. */
  function DinodeIn(block: Block, k: nat): (r: Option<Inode>)
    requires k < IPB
  {
    var kind, links := Word(block, 16 * k) % 0x1_0000, Word(block, 16 * k + 1) / 0x1_0000;
    if kind == 0 then None
    else Some(Inode(kind, if links < 0x8000 then links
                    else links - 0x1_0000, Word(block, 16 * k + 2), AddrsIn(block, k)))
  }

  function AddrsIn(block: Block, k: nat): (r: Addrs)
    requires k < IPB
    ensures forall f | 0 <= f <= NDIRECT :: r[f] == Word(block, 16 * k + 3 + f)
  {
    var w := 16 * k + 3;
    [Word(block, w), Word(block, w + 1), Word(block, w + 2), Word(block, w + 3), Word(block, w + 4), Word(block, w + 5),
     Word(block, w + 6), Word(block, w + 7), Word(block, w + 8), Word(block, w + 9), Word(block, w + 10),
     Word(block, w + 11), Word(block, w + 12)]
  }

  /** The ushort and the uint that start at a byte of a block. */
  function Short(block: Block, at: nat): (n: nat)
    requires at + 2 <= BSIZE
  {
    var lo: int, hi: int := block[at], block[at + 1];
    lo + 0x100 * hi
  }

  function Uint(block: Block, at: nat): (n: nat)
    requires at + 4 <= BSIZE
  {
    Short(block, at) + 0x1_0000 * Short(block, at + 2)
  }

  /** struct dinode, byte by byte: type at 0, nlink, which has a sign, at 6, size at 8, addresses from 12 on. */
  lemma DinodeBytes(block: Block, k: nat)
    requires k < IPB
    ensures DinodeIn(block, k).None? <==> Short(block, 64 * k) == 0
    ensures DinodeIn(block, k).Some? ==>
              var ino, n := DinodeIn(block, k).value, Short(block, 64 * k + 6);
              && ino.kind == Short(block, 64 * k) && ino.size == Uint(block, 64 * k + 8)
              && ino.nlink == (if n < 0x8000 then n else n - 0x1_0000)
              && forall f | 0 <= f <= NDIRECT :: ino.addrs[f] == Uint(block, 64 * k + 12 + 4 * f)
  {
    hide Word;
    ShortsOf(block, 16 * k);
    ShortsOf(block, 16 * k + 1);
    ShortsOf(block, 16 * k + 2);
    forall f | 0 <= f <= NDIRECT ensures Word(block, 16 * k + 3 + f) == Uint(block, 64 * k + 12 + 4 * f) {
      ShortsOf(block, 16 * k + 3 + f);
    }
  }

  lemma ShortsOf(block: Block, i: nat)
    requires i < WORDS
    ensures Word(block, i) == Uint(block, 4 * i)
    ensures Word(block, i) % 0x1_0000 == Short(block, 4 * i) && Word(block, i) / 0x1_0000 == Short(block, 4 * i + 2)
  {
  }

  /** The bitmap, byte by byte: bit 0 of a byte is its lowest. */
  lemma BitBytes(block: Block, x: nat)
    requires x < BPB
    ensures BitIn(block, x) <==> block[x / 8] / [1, 2, 4, 8, 16, 32, 64, 128][x % 8] % 2 == 1
  {
    assert Mask(0) == 1 && Mask(1) == 2 && Mask(2) == 4 && Mask(3) == 8;
    assert Mask(4) == 16 && Mask(5) == 32 && Mask(6) == 64 && Mask(7) == 128;
  }

  /** Block b of the volume, be it of inodes, of the bitmap or of data, holds what v says. */
  ghost predicate Carries(sb: Super, ninodes: nat, v: Volume, b: nat, block: Block) {
    && (sb.datastart <= b < |v.blocks| ==> block == v.blocks[b])
    && (forall x | 0 <= x < |v.bits| && sb.BitBlock(x) == b :: BitIn(block, x % BPB) == v.bits[x])
    && (forall j | 0 <= j < ninodes && sb.InodeBlock(j) == b :: DinodeIn(block, j % IPB) == Entry(v.dinodes, j))
  }

  ghost predicate Encodes(sb: Super, ninodes: nat, d: Device, v: Volume) {
    && sb.Ok() && |d| == |v.blocks| == |v.bits| == sb.size
    && (forall j | 0 <= j < ninodes :: sb.InodeBlock(j) < sb.bmapstart)
    && (forall j | j in v.dinodes :: j < ninodes)
    && (forall b | sb.inodestart <= b < sb.size :: Carries(sb, ninodes, v, b, d[b]))
  }

  /** A device encodes one volume only: same bitmap, same inodes, same data blocks. */
  lemma EncodesOnce(sb: Super, ninodes: nat, d: Device, v: Volume, v': Volume)
    requires Encodes(sb, ninodes, d, v) && Encodes(sb, ninodes, d, v')
    ensures v'.bits == v.bits && v'.dinodes == v.dinodes
    ensures forall b | sb.datastart <= b < sb.size :: v'.blocks[b] == v.blocks[b]
  {
    hide BitIn, DinodeIn;
    forall x | 0 <= x < sb.size ensures v'.bits[x] == v.bits[x] {
      assert Carries(sb, ninodes, v, sb.BitBlock(x), d[sb.BitBlock(x)]);
      assert Carries(sb, ninodes, v', sb.BitBlock(x), d[sb.BitBlock(x)]);
    }
    forall j: nat ensures Entry(v'.dinodes, j) == Entry(v.dinodes, j) {
      if j < ninodes {
        assert Carries(sb, ninodes, v, sb.InodeBlock(j), d[sb.InodeBlock(j)]);
        assert Carries(sb, ninodes, v', sb.InodeBlock(j), d[sb.InodeBlock(j)]);
      }
    }
    SameEntries(v.dinodes, v'.dinodes);
    forall b | sb.datastart <= b < sb.size ensures v'.blocks[b] == v.blocks[b] {
      assert Carries(sb, ninodes, v, b, d[b]) && Carries(sb, ninodes, v', b, d[b]);
    }
  }

  lemma SameEntries(m: map<nat, Inode>, m': map<nat, Inode>)
    requires forall j: nat :: Entry(m', j) == Entry(m, j)
    ensures m' == m
  {
    forall j: nat ensures (j in m <==> j in m') && (j in m ==> m'[j] == m[j]) {
      assert Entry(m', j) == Entry(m, j);
    }
  }

  /** Blocks have one owner each and files no holes, for some assignment of owners. */
  ghost predicate Sane(sb: Super, v: Volume) {
    && (exists owner :: Owned(sb, Image(v.blocks, v.bits, v.dinodes, owner)))
    && (forall j | j in v.dinodes :: v.dinodes[j].size <= MAXBYTES && Mapped(v.dinodes[j], v.blocks, v.dinodes[j].size))
  }

  /** What the file system's operations keep. */
  lemma ValidSane(fs: FileSys)
    requires fs.Valid()
    ensures Sane(fs.sb, fs.Now())
  {
    hide Owned, Mapped;
    assert Owned(fs.sb, Image(fs.blocks, fs.bits, fs.dinodes, fs.owner));
  }

  // ---------------------------------------------------------------- one operation

  /** An operation of process p that wrote these blocks in this order and left the volume vol. */
  datatype Op = Op(p: nat, writes: seq<Write>, vol: Volume)

  function Updates(p: nat, writes: seq<Write>): (r: seq<Event>)
    ensures |r| == |writes|
    ensures forall i | 0 <= i < |r| :: r[i] == Update(p, writes[i].bno, writes[i].data)
  {
    seq(|writes|, i requires 0 <= i < |writes| => Update(p, writes[i].bno, writes[i].data))
  }

  function Events(o: Op): (r: seq<Event>) { [Begin(o.p)] + Updates(o.p, o.writes) + [End(o.p)] }

  /** From device d, which held v, the operation has written the blocks it logged, and only these, as its volume
      says. */
  ghost predicate Performs(sb: Super, ninodes: nat, d: Device, v: Volume, o: Op) {
    && Journaled(sb, v.(logged := {}), o.vol) && (forall j | j in o.vol.dinodes :: j < ninodes)
    && InRange(o.writes, |d|) && (forall i | 0 <= i < |o.writes| :: o.writes[i].bno in o.vol.logged)
    && (forall b | b in o.vol.logged && b < |d| :: Carries(sb, ninodes, o.vol, b, Apply(d, o.writes)[b]))
  }

  lemma CarriesKept(sb: Super, ninodes: nat, v: Volume, v': Volume, b: nat, block: Block)
    requires Journaled(sb, v, v') && b !in v'.logged && Carries(sb, ninodes, v, b, block)
    ensures Carries(sb, ninodes, v', b, block)
  {
    hide BitIn, DinodeIn;
  }

  lemma {:induction false} ApplyOthers(d: Device, ws: seq<Write>, b: nat)
    requires InRange(ws, |d|) && b < |d| && forall i | 0 <= i < |ws| :: ws[i].bno != b
    ensures Apply(d, ws)[b] == d[b]
  {
    if ws != [] { ApplyOthers(d, ws[..|ws| - 1], b); }
  }

  lemma {:induction false} ReplayUpdates(d: Device, h: seq<Event>, p: nat, ws: seq<Write>)
    requires InRange(ws, |d|)
    ensures Replay(d, h + Updates(p, ws)) == Apply(Replay(d, h), ws)
  {
    if ws == [] {
      assert h + Updates(p, ws) == h;
    } else {
      ReplayUpdates(d, h, p, ws[..|ws| - 1]);
      assert (h + Updates(p, ws))[..|h| + |ws| - 1] == h + Updates(p, ws[..|ws| - 1]);
    }
  }

  lemma ReplayOp(d: Device, h: seq<Event>, o: Op)
    requires InRange(o.writes, |d|)
    ensures Replay(d, h + Events(o)) == Apply(Replay(d, h), o.writes)
  {
    var h1, h2 := h + [Begin(o.p)], h + [Begin(o.p)] + Updates(o.p, o.writes);
    assert h1[..|h|] == h && (h2 + [End(o.p)])[..|h2|] == h2;
    assert h + Events(o) == h2 + [End(o.p)];
    ReplayUpdates(d, h1, o.p, o.writes);
  }

  lemma PerformsEncodes(sb: Super, ninodes: nat, d: Device, v: Volume, o: Op)
    requires Encodes(sb, ninodes, d, v) && Performs(sb, ninodes, d, v, o)
    ensures Encodes(sb, ninodes, Apply(d, o.writes), o.vol)
  {
    hide BitIn, DinodeIn, Apply;
    var d' := Apply(d, o.writes);
    forall b | sb.inodestart <= b < sb.size ensures Carries(sb, ninodes, o.vol, b, d'[b]) {
      if b !in o.vol.logged {
        ApplyOthers(d, o.writes, b);
        assert Carries(sb, ninodes, v.(logged := {}), b, d[b]);
        CarriesKept(sb, ninodes, v.(logged := {}), o.vol, b, d[b]);
      }
    }
  }

  // ---------------------------------------------------------------- operations one after the other

  function Flat(ops: seq<Op>): (h: seq<Event>) {
    if ops == [] then [] else Flat(ops[..|ops| - 1]) + Events(ops[|ops| - 1])
  }

  function VolumeAfter(v0: Volume, ops: seq<Op>): (v: Volume) { if ops == [] then v0 else ops[|ops| - 1].vol }

  /** Each operation starts where the one before it ended, and leaves a sane volume. */
  ghost predicate Performed(sb: Super, ninodes: nat, image: Device, v0: Volume, ops: seq<Op>) {
    ops == [] ||
    var before, o := ops[..|ops| - 1], ops[|ops| - 1];
    && Performed(sb, ninodes, image, v0, before)
    && Performs(sb, ninodes, Replay(image, Flat(before)), VolumeAfter(v0, before), o) && Sane(sb, o.vol)
  }

  lemma {:induction false} PerformedEncodes(sb: Super, ninodes: nat, image: Device, v0: Volume, ops: seq<Op>)
    requires Encodes(sb, ninodes, image, v0) && Sane(sb, v0) && Performed(sb, ninodes, image, v0, ops)
    ensures Encodes(sb, ninodes, Replay(image, Flat(ops)), VolumeAfter(v0, ops)) && Sane(sb, VolumeAfter(v0, ops))
  {
    hide Encodes, Performs, Sane, Apply, Journaled;
    if ops != [] {
      var before, o := ops[..|ops| - 1], ops[|ops| - 1];
      PerformedEncodes(sb, ninodes, image, v0, before);
      PerformsFits(sb, ninodes, Replay(image, Flat(before)), VolumeAfter(v0, before), o);
      PerformsEncodes(sb, ninodes, Replay(image, Flat(before)), VolumeAfter(v0, before), o);
      ReplayOp(image, Flat(before), o);
    }
  }

  lemma PerformsFits(sb: Super, ninodes: nat, d: Device, v: Volume, o: Op)
    requires Performs(sb, ninodes, d, v, o)
    ensures InRange(o.writes, |d|)
  {
  }

  lemma {:induction false} PerformedPrefix(sb: Super, ninodes: nat, image: Device, v0: Volume, ops: seq<Op>, k: nat)
    requires Performed(sb, ninodes, image, v0, ops) && k <= |ops|
    ensures Performed(sb, ninodes, image, v0, ops[..k])
  {
    if k < |ops| {
      PerformedPrefix(sb, ninodes, image, v0, ops[..|ops| - 1], k);
      assert ops[..|ops| - 1][..k] == ops[..k];
    } else {
      assert ops[..k] == ops;
    }
  }

  /** An operation that has begun stays open through its updates. */
  lemma {:induction false} OpenThrough(h: seq<Event>, p: nat, ws: seq<Write>)
    ensures Open(h + [Begin(p)] + Updates(p, ws), p)
  {
    if ws == [] {
      assert (h + [Begin(p)]) + Updates(p, ws) == h + [Begin(p)];
    } else {
      OpenThrough(h, p, ws[..|ws| - 1]);
      var e := h + [Begin(p)] + Updates(p, ws);
      assert e[..|e| - 1] == h + [Begin(p)] + Updates(p, ws[..|ws| - 1]);
    }
  }

  /** A cut inside an operation leaves it open. */
  lemma InsideOpen(h: seq<Event>, o: Op, c: nat)
    requires 0 < c < |Events(o)|
    ensures Open(h + Events(o)[..c], o.p)
  {
    OpenThrough(h, o.p, o.writes[..c - 1]);
    assert h + Events(o)[..c] == h + [Begin(o.p)] + Updates(o.p, o.writes[..c - 1]);
  }

  /** A prefix in which no operation is open consists of whole operations. */
  lemma {:induction false} CutBetween(ops: seq<Op>, cut: nat) returns (k: nat)
    requires cut <= |Flat(ops)| && WholeOps(Flat(ops)[..cut])
    ensures k <= |ops| && Flat(ops)[..cut] == Flat(ops[..k])
  {
    if ops == [] {
      k := 0;
    } else {
      var n := |ops| - 1;
      var h, o := Flat(ops[..n]), ops[n];
      if cut <= |h| {
        assert Flat(ops)[..cut] == h[..cut];
        k := CutBetween(ops[..n], cut);
        assert ops[..n][..k] == ops[..k];
      } else {
        var c := cut - |h|;
        assert Flat(ops)[..cut] == h + Events(o)[..c];
        if c < |Events(o)| { InsideOpen(h, o, c); }
        k := |ops|;
        assert ops[..k] == ops && Events(o)[..c] == Events(o);
      }
    }
  }

  /** The part of an operation that a crash can leave behind: none of it, or some but not its end. */
  ghost predicate Unfinished(tail: seq<Event>) {
    tail == [] || exists o, c :: 0 < c < |Events(o)| && tail == Events(o)[..c]
  }

  lemma CutBeforeTail(ops: seq<Op>, tail: seq<Event>, cut: nat) returns (k: nat)
    requires Unfinished(tail) && cut <= |Flat(ops) + tail| && WholeOps((Flat(ops) + tail)[..cut])
    ensures k <= |ops| && (Flat(ops) + tail)[..cut] == Flat(ops[..k])
  {
    hide Flat, Open;
    var h := Flat(ops);
    if cut <= |h| {
      assert (h + tail)[..cut] == h[..cut];
      k := CutBetween(ops, cut);
    } else {
      var o, c :| 0 < c < |Events(o)| && tail == Events(o)[..c];
      assert (h + tail)[..cut] == h + Events(o)[..cut - |h|];
      InsideOpen(h, o, cut - |h|);
    }
  }

  /** Only blocks outside the log matter. */
  lemma EncodesElsewhere(sb: Super, ninodes: nat, l: Layout, d: Device, r: Device, v: Volume)
    requires Encodes(sb, ninodes, d, v) && Before(l, d, r) && l.start + l.cap < sb.inodestart
    ensures Encodes(sb, ninodes, r, v)
  {
    hide BitIn, DinodeIn, Clean;
    forall b | sb.inodestart <= b < sb.size ensures Carries(sb, ninodes, v, b, r[b]) {
      assert Carries(sb, ninodes, v, b, d[b]);
    }
  }

  /** The file system survives. Take any run of the log in which operations of the file system happen one after the
      other, the last one perhaps unfinished; several of them may share a commit. Crash it anywhere, and crash the
      recoveries too. The device that is recovered encodes the volume after some of the operations, the first k, which
      is one where every block has one owner and no file a hole. */
  lemma RecoveredVolume(c: Config, sb: Super, ninodes: nat, nproc: nat, image: Device, v0: Volume, steps: seq<Step>,
                        crashes: seq<nat>, ops: seq<Op>, tail: seq<Event>) returns (k: nat)
    requires c.Sound() && |image| == c.size && Clean(c.l, image) && c.l.start + c.l.cap < sb.inodestart
    requires Possible(c, Start(nproc, image), steps) && Exec(c, Start(nproc, image), steps).hist == Flat(ops) + tail
    requires Encodes(sb, ninodes, image, v0) && Sane(sb, v0) && Performed(sb, ninodes, image, v0, ops)
             && Unfinished(tail)
    ensures var s := Exec(c, Start(nproc, image), steps);
            && k <= |ops| && DurableCut(s) <= |s.hist| && s.hist[..DurableCut(s)] == Flat(ops[..k])
            && Recoverable(c.l, s.disk) && Survivable(c.l, s.disk, crashes)
            && Encodes(sb, ninodes, RecoverThrough(c.l, s.disk, crashes), VolumeAfter(v0, ops[..k]))
    ensures Sane(sb, VolumeAfter(v0, ops[..k]))
  {
    hide Encodes, Performed, Sane, Flat, Replay, RecoverThrough, Survivable, Before, Exec, Unfinished, Possible;
    var s := Exec(c, Start(nproc, image), steps);
    OnlyWholeOperationsSurvive(c, nproc, image, steps, crashes);
    k := CutBeforeTail(ops, tail, DurableCut(s));
    PerformedPrefix(sb, ninodes, image, v0, ops, k);
    PerformedEncodes(sb, ninodes, image, v0, ops[..k]);
    EncodesElsewhere(sb, ninodes, c.l, Replay(image, Flat(ops[..k])), RecoverThrough(c.l, s.disk, crashes),
                     VolumeAfter(v0, ops[..k]));
  }
}
