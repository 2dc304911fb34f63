/** Disk blocks and the block device: a block is BSIZE bytes that the kernel also reads as
    little-endian 32-bit words, and the device is a sequence of blocks changed one whole
    block at a time. */
module Disk {
  import opened Common

  const BSIZE := 512
  const WORDS := 128        // BSIZE / sizeof(uint)

  type Byte = x: int | 0 <= x < 256
  type Block = b: seq<Byte> | |b| == BSIZE witness seq(BSIZE, _ => 0)
  type Device = seq<Block>

  function ZeroBlock(): (b: Block)
    ensures forall i | 0 <= i < BSIZE :: b[i] == 0
  {
    seq(BSIZE, _ => 0)
  }

  const ZERO_BLOCK: Block := ZeroBlock()

  function LittleEndian(b0: int, b1: int, b2: int, b3: int): (w: int) {
    b0 + 0x100 * b1 + 0x1_0000 * b2 + 0x100_0000 * b3
  }

  /** The i-th uint of a block. */
  function Word(b: Block, i: nat): (w: nat)
    requires i < WORDS
    ensures w < LIMIT32
  {
    LittleEndian(b[4 * i], b[4 * i + 1], b[4 * i + 2], b[4 * i + 3])
  }

  /** The bytes of a uint, the low one first. */
  lemma BytesOfWord(b: Block, i: nat)
    requires i < WORDS
    ensures b[4 * i] == Word(b, i) % 0x100 && b[4 * i + 1] == Word(b, i) / 0x100 % 0x100
    ensures b[4 * i + 2] == Word(b, i) / 0x1_0000 % 0x100 && b[4 * i + 3] == Word(b, i) / 0x100_0000
  {
    var b0: int, b1: int, b2: int, b3: int := b[4 * i], b[4 * i + 1], b[4 * i + 2], b[4 * i + 3];
    assert Word(b, i) / 0x100 == b1 + 0x100 * (b2 + 0x100 * b3);
    assert Word(b, i) / 0x1_0000 == b2 + 0x100 * b3;
  }

  /** The four little-endian bytes of a uint. */
  function WordBytes(w: nat): (r: seq<Byte>)
    requires w < LIMIT32
    ensures |r| == 4
    ensures LittleEndian(r[0], r[1], r[2], r[3]) == w
  {
    var w1 := w / 0x100;
    var w2 := w1 / 0x100;
    [w % 0x100, w1 % 0x100, w2 % 0x100, w2 / 0x100]
  }

  /** Stores a uint through a `uint*` view of the block. */
  function SetWord(b: Block, i: nat, w: nat): (r: Block)
    requires i < WORDS && w < LIMIT32
    ensures Word(r, i) == w
    ensures forall j | 0 <= j < WORDS && j != i :: Word(r, j) == Word(b, j)
  {
    b[..4 * i] + WordBytes(w) + b[4 * i + 4..]
  }

  lemma ZeroBlockWords()
    ensures forall j | 0 <= j < WORDS :: Word(ZERO_BLOCK, j) == 0
  {
  }

  /** One block write as the device sees it. */
  datatype Write = Write(bno: nat, data: Block)

  predicate InRange(ws: seq<Write>, size: nat) {
    forall i | 0 <= i < |ws| :: ws[i].bno < size
  }

  /** The device after the writes have reached it in order. */
  function Apply(d: Device, ws: seq<Write>): (r: Device)
    requires InRange(ws, |d|)
    ensures |r| == |d|
  {
    if ws == [] then d
    else
      var last := ws[|ws| - 1];
      Apply(d, ws[..|ws| - 1])[last.bno := last.data]
  }
}
