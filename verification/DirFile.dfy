/** Directories as the files they are: struct dirent in bytes, dirlookup and dirlink through readi and writei, and
    create and unlink on the volume, against the tree of Directory. */
module DirFile {
  import opened Common
  import opened Disk
  import opened Inode
  import opened FileSystem
  import opened Directory

  const DIRENT := 16               // sizeof(struct dirent)
  const INUMS := 0x1_0000          // struct dirent holds a ushort

  // ---------------------------------------------------------------- struct dirent

  predicate Plain(s: string) { forall k | 0 <= k < |s| :: s[k] as int < 256 }

  function CharByte(c: char): (b: Byte)
    requires c as int < 256
  {
    c as int
  }

  /** strncpy pads with NULs. */
  function NameBytes(name: string): (r: seq<Byte>)
    requires Plain(name)
    ensures |r| == DIRSIZ
    ensures forall k | 0 <= k < DIRSIZ :: r[k] == if k < |Clip(name)| then Clip(name)[k] as int else 0
  {
    var c := Clip(name);
    assert forall k | 0 <= k < |c| :: c[k] == name[k];
    seq(DIRSIZ, k requires 0 <= k < DIRSIZ && Plain(c) => if k < |c| then CharByte(c[k]) else 0)
  }

  function EncodeEnt(inum: nat, name: string): (r: seq<Byte>)
    requires Plain(name)
    ensures |r| == DIRENT
  {
    [inum % 0x100, inum / 0x100 % 0x100] + NameBytes(name)
  }

  function Chars(b: seq<Byte>): (s: string)
    ensures |s| == |b| && forall k | 0 <= k < |b| :: s[k] as int == b[k]
  {
    seq(|b|, k requires 0 <= k < |b| => b[k] as char)
  }

  function DecodeEnt(b: seq<Byte>): (de: Dirent)
    requires |b| == DIRENT
    ensures de.inum < INUMS
  {
    var lo: int, hi: int := b[0], b[1];
    Dirent(lo + 0x100 * hi, Clip(Chars(b[2..])))
  }

  /** A name followed by NULs reads as that name. */
  lemma {:induction false} ClipPadded(c: string, s: string, n: nat)
    requires |c| <= n && '\0' !in c && |c| <= |s| && s[..|c|] == c && (|c| < n && |c| < |s| ==> s[|c|] == '\0')
    ensures ClipTo(s, n) == c
  {
    if c != "" {
      assert s[0] == c[0];
      ClipPadded(c[1..], s[1..], n - 1);
    }
  }

  lemma NamePadded(name: string)
    requires Plain(name)
    ensures Clip(Chars(NameBytes(name))) == Clip(name)
  {
    hide ClipTo;
    ClipPadded(Clip(name), Chars(NameBytes(name)), DIRSIZ);
  }

  /** An entry reads back as it was written, with the low 16 bits of its inode number. */
  lemma EntRoundTrip(inum: nat, name: string)
    requires Plain(name)
    ensures DecodeEnt(EncodeEnt(inum, name)) == Dirent(inum % INUMS, Clip(name))
  {
    hide ClipTo;
    var b := EncodeEnt(inum, name);
    assert b[2..] == NameBytes(name);
    NamePadded(name);
    assert inum % 0x100 + 0x100 * (inum / 0x100 % 0x100) == inum % INUMS;
  }

  /** sys_unlink's memset. */
  lemma ZeroEnt()
    ensures DecodeEnt(seq(DIRENT, _ => 0)) == Dirent(0, "")
  {
    var b: seq<Byte> := seq(DIRENT, _ => 0);
    ClipPadded("", Chars(b[2..]), DIRSIZ);
  }

  /** The entries of a directory; a last piece that is too short for an entry is none. */
  function Decode(bytes: seq<Byte>): (ents: seq<Dirent>)
    ensures |ents| == |bytes| / DIRENT
    ensures forall k | 0 <= k < |ents| :: ents[k] == DecodeEnt(bytes[DIRENT * k..DIRENT * k + DIRENT])
  {
    seq(|bytes| / DIRENT, k requires 0 <= k < |bytes| / DIRENT => DecodeEnt(bytes[DIRENT * k..DIRENT * k + DIRENT]))
  }

  /** Writing an entry over the bytes changes this entry and no other. */
  lemma DecodeSplice(bytes: seq<Byte>, k: nat, e: seq<Byte>)
    requires |e| == DIRENT && (DIRENT * k + DIRENT <= |bytes| || |bytes| == DIRENT * k)
    ensures k <= |Decode(bytes)| && DIRENT * k <= |bytes|
    ensures Decode(Splice(bytes, DIRENT * k, e)) == PutEnt(Decode(bytes), k, DecodeEnt(e))
  {
    hide DecodeEnt;
    var r := Splice(bytes, DIRENT * k, e);
    var ents := PutEnt(Decode(bytes), k, DecodeEnt(e));
    assert |Decode(r)| == |ents|;
    forall j | 0 <= j < |ents| ensures Decode(r)[j] == ents[j] { EntSplice(bytes, k, e, j); }
  }

  lemma EntSplice(bytes: seq<Byte>, k: nat, e: seq<Byte>, j: nat)
    requires |e| == DIRENT && DIRENT * k <= |bytes| && DIRENT * j + DIRENT <= |Splice(bytes, DIRENT * k, e)|
    requires j == k || DIRENT * j + DIRENT <= |bytes|
    ensures Splice(bytes, DIRENT * k, e)[DIRENT * j..DIRENT * j + DIRENT] ==
            if j == k then e else bytes[DIRENT * j..DIRENT * j + DIRENT]
  {
    var r, lo := Splice(bytes, DIRENT * k, e), DIRENT * j;
    assert j < k ==> lo + DIRENT <= DIRENT * k;
    assert j > k ==> DIRENT * k + DIRENT <= lo;
    forall x | 0 <= x < DIRENT ensures r[lo + x] == if j == k then e[x] else bytes[lo + x] {}
  }

  // ---------------------------------------------------------------- entries in bytes

  /** The 16-bit number at place k of a directory. */
  function InumAt(bytes: seq<Byte>, k: nat): (n: nat)
    requires DIRENT * k + DIRENT <= |bytes|
  {
    var lo: int, hi: int := bytes[DIRENT * k], bytes[DIRENT * k + 1];
    lo + 0x100 * hi
  }

  /** Character x of a C string. */
  function CharAt(s: string, x: nat): (c: nat) { if x < |s| then s[x] as int else 0 }

  /** The string does not end before character x. */
  ghost predicate Reaches(s: string, x: nat) {
    forall y: nat | y < x :: CharAt(s, y) != 0
  }

  /** strncmp of the name at place k and this one finds no difference up to their ends. */
  ghost predicate NamedAt(bytes: seq<Byte>, k: nat, name: string)
    requires DIRENT * k + DIRENT <= |bytes|
  {
    forall x: nat | x < DIRSIZ && Reaches(name, x) :: bytes[DIRENT * k + 2 + x] == CharAt(name, x)
  }

  /** Place k holds an entry in use with this name. */
  ghost predicate EntryAt(bytes: seq<Byte>, k: nat, name: string) {
    DIRENT * k + DIRENT <= |bytes| && InumAt(bytes, k) != 0 && NamedAt(bytes, k, name)
  }

  /** Place k holds this entry: 16 bits of the number, low byte first, and the name padded with NULs. */
  ghost predicate HoldsEntry(bytes: seq<Byte>, k: nat, inum: nat, name: string) {
    && DIRENT * k + DIRENT <= |bytes|
    && bytes[DIRENT * k] == inum % 0x100 && bytes[DIRENT * k + 1] == inum / 0x100 % 0x100
    && forall x: nat | x < DIRSIZ ::
         bytes[DIRENT * k + 2 + x] == if Reaches(name, x) then CharAt(name, x) else 0
  }

  /** strncmp finds no difference between the strings in n bytes. */
  ghost predicate Agree(s: string, t: string, n: nat) {
    forall x: nat | x < n && Reaches(t, x) :: CharAt(s, x) == CharAt(t, x)
  }

  /** Two strings are cut to the same name exactly if strncmp finds no difference. */
  lemma {:induction false} SameName(s: string, t: string, n: nat)
    ensures ClipTo(s, n) == ClipTo(t, n) <==> Agree(s, t, n)
  {
    hide Agree, Reaches;
    SameFirst(s, t, n);
    if n > 0 && CharAt(s, 0) == CharAt(t, 0) != 0 {
      SameName(s[1..], t[1..], n - 1);
      SameTail(s, t, n);
    }
  }

  lemma SameFirst(s: string, t: string, n: nat)
    ensures n == 0 ==> Agree(s, t, n)
    ensures n > 0 && CharAt(s, 0) != CharAt(t, 0) ==> !Agree(s, t, n)
    ensures CharAt(s, 0) == CharAt(t, 0) == 0 ==> Agree(s, t, n)
  {
    assert Reaches(t, 0);
  }

  lemma SameTail(s: string, t: string, n: nat)
    requires n > 0 && s != "" && t != "" && s[0] == t[0] && t[0] != '\0'
    ensures Agree(s, t, n) <==> Agree(s[1..], t[1..], n - 1)
  {
    assert forall x: nat :: CharAt(s[1..], x) == CharAt(s, x + 1) && CharAt(t[1..], x) == CharAt(t, x + 1);
    forall x: nat ensures Reaches(t[1..], x) <==> Reaches(t, x + 1) {
      if Reaches(t[1..], x) {
        forall y: nat | y < x + 1 ensures CharAt(t, y) != 0 {
          if y > 0 { assert CharAt(t[1..], y - 1) != 0; }
        }
      }
    }
    if forall x: nat | x < n - 1 && Reaches(t[1..], x) :: CharAt(s[1..], x) == CharAt(t[1..], x) {
      forall x: nat | x < n && Reaches(t, x) ensures CharAt(s, x) == CharAt(t, x) {
        if x > 0 { assert CharAt(s[1..], x - 1) == CharAt(t[1..], x - 1); }
      }
    }
  }

  /** What decoding reads at place k. */
  lemma DecodedAt(bytes: seq<Byte>, k: nat, name: string)
    requires k < |Decode(bytes)|
    ensures DIRENT * k + DIRENT <= |bytes| && Decode(bytes)[k].inum == InumAt(bytes, k)
    ensures Clip(Decode(bytes)[k].name) == Clip(name) <==> NamedAt(bytes, k, name)
  {
    hide ClipTo;
    var b := bytes[DIRENT * k..DIRENT * k + DIRENT];
    var s := Chars(b[2..]);
    ClipTwice(s);
    SameName(s, name, DIRSIZ);
    forall x: nat | x < DIRSIZ ensures CharAt(s, x) == bytes[DIRENT * k + 2 + x] {}
  }

  /** The tree's search for a name, on the bytes. */
  lemma FoundInBytes(bytes: seq<Byte>, name: string)
    ensures var k := Find(Decode(bytes), name, 0);
            && (k < |Decode(bytes)| ==> EntryAt(bytes, k, name) && Decode(bytes)[k].inum == InumAt(bytes, k))
            && forall j: nat | j < k || k == |Decode(bytes)| :: !EntryAt(bytes, j, name)
  {
    hide Find, NamedAt, ClipTo, DecodeEnt;
    var ents := Decode(bytes);
    var k := Find(ents, name, 0);
    if k < |ents| { DecodedAt(bytes, k, name); }
    forall j: nat | j < k || k == |ents| ensures !EntryAt(bytes, j, name) {
      if j < |ents| { DecodedAt(bytes, j, name); }
    }
  }

  /** The tree's first free entry, on the bytes. */
  lemma FreeInBytes(bytes: seq<Byte>)
    requires |bytes| % DIRENT == 0
    ensures var k := FirstFree(Decode(bytes), 0);
            && DIRENT * k <= |bytes| && (DIRENT * k < |bytes| ==> InumAt(bytes, k) == 0)
            && forall j: nat | j < k :: InumAt(bytes, j) != 0
  {
    hide FirstFree, NamedAt, ClipTo, DecodeEnt;
    var ents := Decode(bytes);
    var k := FirstFree(ents, 0);
    if k < |ents| { DecodedAt(bytes, k, ""); }
    forall j: nat | j < k ensures InumAt(bytes, j) != 0 { DecodedAt(bytes, j, ""); }
  }

  /** What encoding writes at place k. */
  lemma EncodedAt(bytes: seq<Byte>, k: nat, inum: nat, name: string)
    requires DIRENT * k <= |bytes| && Plain(name)
    ensures HoldsEntry(Splice(bytes, DIRENT * k, EncodeEnt(inum, name)), k, inum, name)
  {
    hide ClipTo;
    var e := EncodeEnt(inum, name);
    var r := Splice(bytes, DIRENT * k, e);
    assert forall x | 0 <= x < DIRENT :: r[DIRENT * k + x] == e[x];
    forall x: nat | x < DIRSIZ
      ensures e[2 + x] == if Reaches(name, x) then CharAt(name, x) else 0
    {
      ClipChar(name, DIRSIZ, x);
    }
  }

  lemma {:induction false} ClipChar(name: string, n: nat, x: nat)
    requires x < n
    ensures CharAt(ClipTo(name, n), x) ==
            if Reaches(name, x) then CharAt(name, x) else 0
  {
    if x > 0 {
      if CharAt(name, 0) != 0 {
        ClipChar(name[1..], n - 1, x - 1);
        assert forall y: nat :: CharAt(name[1..], y) == CharAt(name, y + 1);
        if Reaches(name[1..], x - 1) {
          forall y: nat | y < x ensures CharAt(name, y) != 0 {
            if y > 0 { assert CharAt(name[1..], y - 1) != 0; }
          }
        }
      } else {
        assert CharAt(name, 0) == 0;
      }
    } else {
      assert Reaches(name, 0);
    }
  }

  // ---------------------------------------------------------------- the tree on the volume

  function KindOf(kind: nat): (k: Kind) { if kind == T_DIR then DIR else if kind == 2 then FILE else DEV }

  function KindNumber(k: Kind): (kind: nat)
    ensures KindOf(kind) == k
  {
    match k case DIR => T_DIR case FILE => 2 case DEV => 3
  }

  function NodeOf(ino: Inode, bytes: seq<Byte>): (n: Node) {
    Node(KindOf(ino.kind), ino.nlink, if ino.kind == T_DIR then Decode(bytes) else [])
  }

  /** What Directory's operations speak of, read off the inodes and the bytes of their files. */
  function NodesOf(inodes: map<nat, Inode>, files: map<nat, seq<Byte>>): (r: map<nat, Node>)
    requires inodes.Keys == files.Keys
  {
    map i | i in inodes :: NodeOf(inodes[i], files[i])
  }

  ghost function Nodes(fs: FileSys): (r: map<nat, Node>)
    requires fs.Valid()
    reads fs`blocks, fs`bits, fs`inodes, fs`owner, fs`dinodes
  {
    hide FileSys.Valid, FileSys.Contents, FileSys.Files;
    FilesContents(fs);
    NodesOf(fs.inodes, fs.Files())
  }

  /** What an operation changes, at one moment. */
  datatype Snap = Snap(inodes: map<nat, Inode>, nodes: map<nat, Node>, logged: set<nat>, left: nat)

  ghost function At(fs: FileSys): (s: Snap)
    requires fs.Valid()
    reads fs
  {
    Snap(fs.inodes, Nodes(fs), fs.logged, fs.Left())
  }

  lemma NodeAt(fs: FileSys, i: nat)
    requires fs.Valid() && i in fs.inodes
    ensures Nodes(fs).Keys == fs.inodes.Keys && Nodes(fs)[i] == NodeOf(fs.inodes[i], fs.Contents(i))
    ensures |fs.Contents(i)| == fs.inodes[i].size <= MAXBYTES
  {
    hide FileSys.Valid, FileSys.Contents, FileSys.Files, NodeOf;
    FilesContents(fs);
    SmallFile(fs, i);
  }

  lemma FilesContents(fs: FileSys)
    requires fs.Valid()
    ensures fs.Files().Keys == fs.inodes.Keys
    ensures forall i | i in fs.inodes :: fs.Files()[i] == fs.Contents(i)
  {
    hide Bytes, Owned, Mapped;
  }

  // ---------------------------------------------------------------- dirlookup

  /** Hit: entry k names inode inum. */
  datatype Looked = Hit(k: nat, inum: nat) | Miss | LookPanic

  /** dirlookup. It panics on an inode that is no directory, and on a size that is no multiple of an entry, unless
      it finds the name first. */
  method Dirlookup(fs: FileSys, d: nat, name: string) returns (r: Looked)
    requires fs.Valid() && d in fs.inodes
    modifies fs`bits, fs`blocks, fs`logged, fs`inodes, fs`owner
    ensures fs.Img() == old(fs.Img()) && fs.logged == old(fs.logged) && fs.Valid()
    ensures fs.Contents(d) == old(fs.Contents(d)) && fs.Files() == old(fs.Files())
    ensures var ents := Decode(fs.Contents(d));
            var k := Find(ents, name, 0);
            r == if fs.inodes[d].kind != T_DIR then LookPanic
            else if k < |ents| then Hit(k, ents[k].inum)
            else if |fs.Contents(d)| % DIRENT == 0 then Miss else LookPanic
    ensures var bytes := fs.Contents(d);
            match r
            case Hit(k, inum) =>
              && fs.inodes[d].kind == T_DIR && EntryAt(bytes, k, name) && inum == InumAt(bytes, k)
              && forall j: nat | j < k :: !EntryAt(bytes, j, name)
            case Miss =>
              fs.inodes[d].kind == T_DIR && |bytes| % DIRENT == 0 && forall j: nat :: !EntryAt(bytes, j, name)
            case LookPanic =>
              fs.inodes[d].kind != T_DIR || (|bytes| % DIRENT != 0 && forall j: nat :: !EntryAt(bytes, j, name))
  {
    hide FileSys.Valid, FileSys.Contents, EntryAt, InumAt, DecodeEnt;
    FoundInBytes(fs.Contents(d), name);
    if fs.inodes[d].kind != T_DIR {
      return LookPanic;
    }
    ghost var bytes := fs.Contents(d);
    ghost var ents := Decode(bytes);
    SmallFile(fs, d);
    var k := 0;
    while DIRENT * k < fs.inodes[d].size
      invariant 0 <= k <= |ents| && Find(ents, name, 0) == Find(ents, name, k)
      invariant fs.Img() == old(fs.Img()) && fs.logged == old(fs.logged) && fs.Valid()
      invariant fs.Contents(d) == bytes && fs.Files() == old(fs.Files())
    {
      var e := ReadEnt(fs, d, k);
      if e.None? {
        return LookPanic;
      }
      if e.value.inum != 0 && Clip(e.value.name) == Clip(name) {
        return Hit(k, e.value.inum);
      }
      k := k + 1;
    }
    r := Miss;
  }

  lemma SmallFile(fs: FileSys, d: nat)
    requires fs.Valid() && d in fs.inodes
    ensures |fs.Contents(d)| == fs.inodes[d].size <= MAXBYTES
  {
    hide Owned, Mapped, Bytes;
  }

  /** readi of the entry at place k, inside the file; None when the file ends before the entry does. */
  method ReadEnt(fs: FileSys, d: nat, k: nat) returns (e: Option<Dirent>)
    requires fs.Valid() && d in fs.inodes && DIRENT * k < fs.inodes[d].size
    modifies fs`bits, fs`blocks, fs`logged, fs`inodes, fs`owner
    ensures fs.Img() == old(fs.Img()) && fs.logged == old(fs.logged) && fs.Valid()
    ensures fs.Contents(d) == old(fs.Contents(d)) && fs.Files() == old(fs.Files())
    ensures e == if k < |Decode(fs.Contents(d))| then Some(Decode(fs.Contents(d))[k]) else None
  {
    hide FileSys.Valid, FileSys.Contents, DecodeEnt;
    SmallFile(fs, d);
    var b := fs.Readi(d, DIRENT * k, DIRENT);
    if |b.value| != DIRENT {
      return None;
    }
    e := Some(DecodeEnt(b.value));
  }

  // ---------------------------------------------------------------- dirlink

  /** How many blocks writing entry k allocates at most. */
  function Takes(k: nat): (n: nat) { if k == 0 then 1 else if k == 1 then 0 else 2 }

  /** How many blocks it logs at most, besides the directory's inode: the entry's, the indirect one, bitmap blocks. */
  function Logs(k: nat): (n: nat) { if k == 0 then 2 else if k == 1 then 1 else 4 }

  /** One entry is written inside one block. */
  lemma EntCost(k: nat, size: nat, mapBlocks: nat)
    ensures Touching(DIRENT * k, DIRENT) == 1
    ensures MapBound(DIRENT * k, 1) <= Takes(k)
    ensures Cost(DIRENT * k, DIRENT, size, mapBlocks) <= Logs(k)
    ensures DIRENT * k < size ==> DIRENT * k + DIRENT > size || Cost(DIRENT * k, DIRENT, size, mapBlocks) == 1
  {
  }

  /** The file of d changes, and its inode keeps its kind. */
  lemma NodesUpdate(inodes: map<nat, Inode>, files: map<nat, seq<Byte>>, inodes': map<nat, Inode>, d: nat,
                    bytes: seq<Byte>)
    requires inodes.Keys == files.Keys == inodes'.Keys && d in inodes
    requires forall j | j in inodes && j != d :: inodes'[j] == inodes[j]
    ensures NodesOf(inodes', files[d := bytes]) == NodesOf(inodes, files)[d := NodeOf(inodes'[d], bytes)]
  {
    hide NodeOf;
  }

  /** Entry k of directory d has become de; at most `extra` was logged besides d's inode. */
  ghost predicate Wrote(sb: Super, s: Snap, s': Snap, d: nat, k: nat, de: Dirent, extra: set<nat>) {
    && d in s.nodes && d in s.inodes && k <= |s.nodes[d].ents|
    && s'.nodes == s.nodes[d := s.nodes[d].(ents := PutEnt(s.nodes[d].ents, k, de))]
    && s'.inodes.Keys == s.inodes.Keys && s'.inodes[d].kind == s.inodes[d].kind
    && s'.inodes[d].nlink == s.inodes[d].nlink
    && s'.inodes[d].size == Max(s.inodes[d].size, DIRENT * k + DIRENT)
    && (forall j | j in s.inodes && j != d :: s'.inodes[j] == s.inodes[j])
    && s'.logged <= s.logged + extra + {sb.InodeBlock(d)} && |extra| <= Logs(k)
    && (DIRENT * k < s.inodes[d].size ==> s'.logged <= s.logged + extra && |extra| <= 1)
    && s.left <= s'.left + Takes(k)
  }

  /** writei of one entry into place k of directory d. */
  method WriteEnt(fs: FileSys, d: nat, k: nat, e: seq<Byte>) returns (ok: bool, ghost extra: set<nat>)
    requires fs.Valid() && d in fs.inodes && fs.inodes[d].kind == T_DIR && |e| == DIRENT
    requires DIRENT * k + DIRENT <= fs.inodes[d].size || DIRENT * k == fs.inodes[d].size
    modifies fs`bits, fs`blocks, fs`logged, fs`inodes, fs`dinodes, fs`owner
    ensures ok ==> fs.Valid() && Wrote(fs.sb, old(At(fs)), At(fs), d, k, DecodeEnt(e), extra)
    ensures ok ==> d in fs.inodes && DIRENT * k <= |old(fs.Contents(d))|
                   && fs.Contents(d) == Splice(old(fs.Contents(d)), DIRENT * k, e)
    ensures !ok ==> DIRENT * k == old(fs.inodes[d].size)
                    && (DIRENT * k + DIRENT > MAXBYTES || old(fs.Left()) < Takes(k))
    ensures Journaled(fs.sb, old(fs.Now()), fs.Now())
  {
    hide FileSys.Valid, FileSys.Contents, FileSys.Files, Journaled, Cost, MapBound, DecodeEnt, Splice, PutEnt;
    NodeAt(fs, d);
    FilesContents(fs);
    EntCost(k, fs.inodes[d].size, MapBlocks(fs.sb));
    DecodeSplice(fs.Contents(d), k, e);
    ghost var bytes, files, inodes := fs.Contents(d), fs.Files(), fs.inodes;
    var r;
    r, extra := fs.Writei(d, e, DIRENT * k);
    ok := r == Ret(DIRENT);
    if ok {
      NodeAt(fs, d);
      FilesContents(fs);
      NodesUpdate(inodes, files, fs.inodes, d, Splice(bytes, DIRENT * k, e));
    }
  }

  predicate Present(n: Node, name: string) { Find(n.ents, name, 0) < |n.ents| }

  /** Why dirlink into directory n can panic. */
  predicate Stuck(n: Node, size: nat, left: nat) {
    || size % DIRENT != 0
    || (FirstFree(n.ents, 0) == |n.ents| && (size + DIRENT > MAXBYTES || left < Takes(|n.ents|)))
  }

  /** The first place that is free, or the end, has got this entry; the other bytes are as before. */
  ghost predicate EntryAdded(was: seq<Byte>, now: seq<Byte>, k: nat, inum: nat, name: string) {
    && |was| % DIRENT == 0 && DIRENT * k <= |was| && |now| == Max(|was|, DIRENT * k + DIRENT)
    && (forall j: nat | j < k :: InumAt(was, j) != 0) && (DIRENT * k < |was| ==> InumAt(was, k) == 0)
    && HoldsEntry(now, k, inum, name)
    && forall x | 0 <= x < |was| && !(DIRENT * k <= x < DIRENT * k + DIRENT) :: now[x] == was[x]
  }

  lemma AddsEntry(bytes: seq<Byte>, inum: nat, name: string)
    requires |bytes| % DIRENT == 0 && Plain(name)
    ensures var k := FirstFree(Decode(bytes), 0);
            DIRENT * k <= |bytes| && EntryAdded(bytes, Splice(bytes, DIRENT * k, EncodeEnt(inum, name)), k, inum, name)
  {
    hide FirstFree, EncodeEnt, HoldsEntry, InumAt;
    FreeInBytes(bytes);
    EncodedAt(bytes, FirstFree(Decode(bytes), 0), inum, name);
  }

  /** dirlink, for an inode number of any width: the entry keeps 16 bits of it. A panic means a directory of broken
      size, a full one, or a volume with fewer than two free blocks. */
  method Dirlink(fs: FileSys, d: nat, name: string, inum: nat) returns (r: Result, ghost extra: set<nat>)
    requires fs.Valid() && d in fs.inodes && fs.inodes[d].kind == T_DIR && Plain(name)
    modifies fs`bits, fs`blocks, fs`logged, fs`inodes, fs`dinodes, fs`owner
    ensures r == Ret(0) || r == Ret(-1) || r.Panic?
    ensures d in old(At(fs)).nodes && (r == Ret(-1) <==> Present(old(At(fs)).nodes[d], name))
    ensures r == Ret(-1) ==> fs.Img() == old(fs.Img()) && fs.Valid() && At(fs) == old(At(fs))
    ensures r == Ret(0) ==>
              && fs.Valid()
              && Wrote(fs.sb, old(At(fs)), At(fs), d, FirstFree(old(At(fs)).nodes[d].ents, 0),
                       Dirent(inum % INUMS, Clip(name)), extra)
    ensures r == Ret(-1) <==> exists j: nat :: EntryAt(old(fs.Contents(d)), j, name)
    ensures r == Ret(0) ==>
              d in fs.inodes && exists k: nat :: EntryAdded(old(fs.Contents(d)), fs.Contents(d), k, inum, name)
    ensures r.Panic? ==> Stuck(old(At(fs)).nodes[d], old(fs.inodes[d].size), old(fs.Left()))
    ensures Journaled(fs.sb, old(fs.Now()), fs.Now())
  {
    hide FileSys.Valid, FileSys.Contents, FileSys.Files, Journaled, EncodeEnt, DecodeEnt, PutEnt, Wrote, FreeCount;
    JournaledSame(fs.sb, fs.Now());
    NodeAt(fs, d);
    extra := {};
    ghost var s, bytes := At(fs), fs.Contents(d);
    FoundInBytes(bytes, name);
    var found := Dirlookup(fs, d, name);
    if found.Hit? {
      return Ret(-1), {};
    }
    if found.LookPanic? {
      return Panic, {};
    }
    var k := FreeEnt(fs, d);
    assert At(fs) == s;
    EntRoundTrip(inum, name);
    AddsEntry(bytes, inum, name);
    var ok;
    ok, extra := WriteEnt(fs, d, k, EncodeEnt(inum, name));
    r := if ok then Ret(0) else Panic;
  }

  /** dirlink's loop: the first free entry of a directory of whole entries, or its end. */
  method FreeEnt(fs: FileSys, d: nat) returns (k: nat)
    requires fs.Valid() && d in fs.inodes && fs.inodes[d].size % DIRENT == 0
    modifies fs`bits, fs`blocks, fs`logged, fs`inodes, fs`owner
    ensures fs.Img() == old(fs.Img()) && fs.logged == old(fs.logged) && fs.Valid()
    ensures fs.Contents(d) == old(fs.Contents(d)) && fs.Files() == old(fs.Files())
    ensures k == FirstFree(Decode(fs.Contents(d)), 0)
  {
    hide FileSys.Valid, FileSys.Contents, FileSys.Files;
    SmallFile(fs, d);
    ghost var ents := Decode(fs.Contents(d));
    k := 0;
    while DIRENT * k < fs.inodes[d].size
      invariant 0 <= k <= |ents| && FirstFree(ents, 0) == FirstFree(ents, k)
      invariant fs.Img() == old(fs.Img()) && fs.logged == old(fs.logged) && fs.Valid()
      invariant fs.Contents(d) == old(fs.Contents(d)) && fs.Files() == old(fs.Files())
    {
      var e := ReadEnt(fs, d, k);
      if e.value.inum == 0 {
        return;
      }
      k := k + 1;
    }
  }

  // ---------------------------------------------------------------- create

  function TreeOf(nodes: map<nat, Node>): (t: Tree) { Tree(nodes, multiset{}, multiset{}, map[]) }

  /** Inode ip has got its two entries. */
  ghost predicate Dotted(sb: Super, s: Snap, s': Snap, ip: nat, dp: nat, extra: set<nat>) {
    && ip in s.nodes && ip in s.inodes && s'.inodes.Keys == s.inodes.Keys && s'.nodes.Keys == s.nodes.Keys
    && (forall j | j in s.inodes && j != ip :: s'.inodes[j] == s.inodes[j])
    && (forall j | j in s.nodes && j != ip :: s'.nodes[j] == s.nodes[j])
    && s'.logged <= s.logged + extra + {sb.InodeBlock(ip)} && |extra| <= (if ip < INUMS then 3 else 4)
    && (ip < INUMS ==> s.left <= s'.left + 1)
    && (ip < INUMS && dp < INUMS ==> s'.nodes[ip] == s.nodes[ip].(ents := [Dirent(ip, "."), Dirent(dp, "..")]))
  }

  method Dots(fs: FileSys, ip: nat, dp: nat) returns (ok: bool, ghost extra: set<nat>)
    requires fs.Valid() && 0 < ip && ip in fs.inodes && fs.inodes[ip].kind == T_DIR && fs.inodes[ip].size == 0
    modifies fs`bits, fs`blocks, fs`logged, fs`inodes, fs`dinodes, fs`owner
    ensures ok ==> fs.Valid() && Dotted(fs.sb, old(At(fs)), At(fs), ip, dp, extra)
    ensures !ok && ip < INUMS ==> old(fs.Left()) < 1
    ensures Journaled(fs.sb, old(fs.Now()), fs.Now())
  {
    hide FileSys.Valid, Journaled, Find, FirstFree, ClipTo, Wrote, Dotted, Present, FreeCount, Nodes;
    EmptyFile(fs, ip);
    ghost var s0 := At(fs);
    FirstDot(s0.nodes[ip]);
    var r;
    r, extra := Dirlink(fs, ip, ".", ip);
    if r != Ret(0) {
      return false, extra;
    }
    ghost var v1, extra1, s1 := fs.Now(), extra, At(fs);
    SecondDot(fs.sb, s0, s1, ip, extra1);
    r, extra := Dirlink(fs, ip, "..", dp);
    JournaledChain(fs.sb, old(fs.Now()), v1, fs.Now());
    ok := r == Ret(0);
    if ok { BothDots(fs.sb, s0, s1, At(fs), ip, dp, extra1, extra); }
    extra := extra1 + extra;
  }

  lemma EmptyFile(fs: FileSys, i: nat)
    requires fs.Valid() && i in fs.inodes && fs.inodes[i].size == 0
    ensures i in Nodes(fs) && Nodes(fs)[i] == Node(KindOf(fs.inodes[i].kind), fs.inodes[i].nlink, [])
  {
    hide FileSys.Valid, FileSys.Contents;
    NodeAt(fs, i);
  }

  lemma FirstDot(n: Node)
    requires n.ents == []
    ensures !Present(n, ".") && FirstFree(n.ents, 0) == 0 && Clip(".") == "." && Clip("..") == ".."
  {
  }

  lemma SecondDot(sb: Super, s: Snap, s': Snap, ip: nat, extra: set<nat>)
    requires Wrote(sb, s, s', ip, 0, Dirent(ip % INUMS, "."), extra) && s.nodes[ip].ents == [] && s.inodes[ip].size == 0
    ensures ip in s'.nodes && s'.nodes[ip].ents == [Dirent(ip % INUMS, ".")] && !Present(s'.nodes[ip], "..")
    ensures FirstFree(s'.nodes[ip].ents, 0) == if ip % INUMS == 0 then 0 else 1
    ensures ip in s'.inodes && s'.inodes[ip].size == DIRENT && s'.inodes[ip].kind == s.inodes[ip].kind
  {
    assert Clip(".") == "." && Clip("..") == "..";
  }

  lemma BothDots(sb: Super, s: Snap, s1: Snap, s': Snap, ip: nat, dp: nat, extra1: set<nat>, extra2: set<nat>)
    requires 0 < ip && Wrote(sb, s, s1, ip, 0, Dirent(ip % INUMS, "."), extra1) && s.nodes[ip].ents == []
    requires Wrote(sb, s1, s', ip, if ip % INUMS == 0 then 0 else 1, Dirent(dp % INUMS, ".."), extra2)
    ensures Dotted(sb, s, s', ip, dp, extra1 + extra2)
  {
    CardUnion(extra1, extra2);
  }

  /** ialloc, as it changes the tree. */
  method NewInum(fs: FileSys, ninodes: nat, kind: Kind) returns (r: Option<nat>)
    requires fs.Valid()
    modifies fs`logged, fs`inodes, fs`dinodes
    ensures fs.Valid()
    ensures r.None? ==> forall j | 1 <= j < ninodes :: j in old(fs.inodes)
    ensures r.Some? ==>
              var s, ip := old(At(fs)), r.value;
              && 1 <= ip < ninodes && ip !in s.inodes
              && At(fs) == Snap(s.inodes[ip := Inode(KindNumber(kind), 0, 0, seq(NDIRECT + 1, _ => 0))],
                                s.nodes[ip := Node(kind, 0, [])],
                                s.logged + {fs.sb.InodeBlock(ip)}, s.left)
    ensures Journaled(fs.sb, old(fs.Now()), fs.Now())
  {
    hide FileSys.Valid, FileSys.Files, FileSys.Contents, Journaled, FreeCount;
    FilesContents(fs);
    r := fs.Ialloc(ninodes, KindNumber(kind));
    FilesContents(fs);
  }

  /** A new nlink and iupdate, as they change the tree. */
  method Relink(fs: FileSys, i: nat, nlink: int)
    requires fs.Valid() && i in fs.inodes
    modifies fs`logged, fs`inodes, fs`dinodes
    ensures fs.Valid() && i in old(At(fs)).nodes
    ensures var s := old(At(fs));
            At(fs) == Snap(s.inodes[i := s.inodes[i].(nlink := nlink)], s.nodes[i := s.nodes[i].(nlink := nlink)],
                           s.logged + {fs.sb.InodeBlock(i)}, s.left)
    ensures Journaled(fs.sb, old(fs.Now()), fs.Now())
  {
    hide FileSys.Valid, FileSys.Files, FileSys.Contents, Journaled, FreeCount, Decode;
    FilesContents(fs);
    fs.SetLinks(i, nlink);
    FilesContents(fs);
  }

  /** Inode ip is there, with its entries if it is a directory; the parent counts it, and has no entry yet. */
  ghost predicate Prepared(sb: Super, s: Snap, s': Snap, dp: nat, kind: Kind, ip: nat, extra: set<nat>) {
    && dp in s.nodes && dp in s.inodes && ip !in s.inodes && ip != dp && dp in s'.nodes && dp in s'.inodes
    && s'.inodes[dp] == s.inodes[dp].(nlink := s'.inodes[dp].nlink) && s'.nodes[dp].ents == s.nodes[dp].ents
    && s'.logged <= s.logged + extra + {sb.InodeBlock(ip), sb.InodeBlock(dp)}
    && |extra| <= (if ip < INUMS then 3 else 4) && (ip < INUMS ==> s.left <= s'.left + 1)
    && (ip < INUMS && dp < INUMS ==>
          s'.nodes == if kind == DIR
          then s.nodes[ip := Node(DIR, 1, [])][dp := Adjust(s.nodes[dp], 1)][ip := NewNode(dp, DIR, ip)]
          else s.nodes[ip := Node(kind, 1, [])])
  }

  /** create, from ialloc up to the entry in the parent. */
  method Prepare(fs: FileSys, ninodes: nat, dp: nat, kind: Kind) returns (r: Option<nat>, ghost extra: set<nat>)
    requires fs.Valid() && dp in fs.inodes
    modifies fs`bits, fs`blocks, fs`logged, fs`inodes, fs`dinodes, fs`owner
    ensures r.Some? ==> 1 <= r.value < ninodes && fs.Valid()
                        && Prepared(fs.sb, old(At(fs)), At(fs), dp, kind, r.value, extra)
    ensures r.None? && ninodes <= INUMS ==> old(fs.Left()) < 1 || forall j | 1 <= j < ninodes :: j in old(fs.inodes)
    ensures Journaled(fs.sb, old(fs.Now()), fs.Now())
  {
    hide FileSys.Valid, Journaled, FreeCount, Nodes, Prepared, NewNode;
    extra := {};
    ghost var s := At(fs);
    SameKeys(fs);
    r := NewInum(fs, ninodes, kind);
    if r.None? {
      return;
    }
    var ip := r.value;
    ghost var v1 := fs.Now();
    Relink(fs, ip, 1);
    JournaledChain(fs.sb, old(fs.Now()), v1, fs.Now());
    if kind == DIR {
      ghost var v2 := fs.Now();
      var ok;
      ok, extra := PrepareDir(fs, dp, ip, s);
      JournaledChain(fs.sb, old(fs.Now()), v2, fs.Now());
      r := if ok then Some(ip) else None;
    } else {
      PreparedFile(fs.sb, s, At(fs), dp, kind, ip);
    }
  }

  /** mkdir's part: the parent counts the new directory, which gets its two entries. */
  method PrepareDir(fs: FileSys, dp: nat, ip: nat, ghost s: Snap) returns (ok: bool, ghost extra: set<nat>)
    requires fs.Valid() && dp in fs.inodes && 0 < ip && ip in fs.inodes && fs.inodes[ip].kind == T_DIR
             && fs.inodes[ip].size == 0
    requires dp in s.nodes && dp in s.inodes && ip !in s.inodes && ip !in s.nodes
             && s.nodes[dp].nlink == s.inodes[dp].nlink
    requires At(fs) == Snap(s.inodes[ip := fs.inodes[ip]], s.nodes[ip := Node(DIR, 1, [])],
                            s.logged + {fs.sb.InodeBlock(ip)}, s.left)
    modifies fs`bits, fs`blocks, fs`logged, fs`inodes, fs`dinodes, fs`owner
    ensures ok ==> fs.Valid() && Prepared(fs.sb, s, At(fs), dp, DIR, ip, extra)
    ensures !ok && ip < INUMS ==> s.left < 1
    ensures Journaled(fs.sb, old(fs.Now()), fs.Now())
  {
    hide FileSys.Valid, Journaled, FreeCount, Nodes, Prepared, NewNode, Dotted;
    Relink(fs, dp, fs.inodes[dp].nlink + 1);
    ghost var v1, s1 := fs.Now(), At(fs);
    ok, extra := Dots(fs, ip, dp);
    JournaledChain(fs.sb, old(fs.Now()), v1, fs.Now());
    if ok { PreparedDir(fs.sb, s, s1, At(fs), dp, ip, extra); }
  }

  lemma PreparedFile(sb: Super, s: Snap, s': Snap, dp: nat, kind: Kind, ip: nat)
    requires dp in s.nodes && dp in s.inodes && ip !in s.inodes && kind != DIR
    requires ip in s'.inodes && s'.inodes == s.inodes[ip := s'.inodes[ip]]
             && s'.nodes == s.nodes[ip := Node(kind, 1, [])]
    requires s'.logged == s.logged + {sb.InodeBlock(ip)} && s'.left == s.left
    ensures Prepared(sb, s, s', dp, kind, ip, {})
  {
  }

  lemma SameKeys(fs: FileSys)
    requires fs.Valid()
    ensures Nodes(fs).Keys == fs.inodes.Keys
    ensures forall i | i in fs.inodes ::
              Nodes(fs)[i].nlink == fs.inodes[i].nlink && Nodes(fs)[i].kind == KindOf(fs.inodes[i].kind)
  {
    hide FileSys.Valid, FileSys.Files, Decode;
    FilesContents(fs);
  }

  lemma PreparedDir(sb: Super, s: Snap, s1: Snap, s': Snap, dp: nat, ip: nat, extra: set<nat>)
    requires Dotted(sb, s1, s', ip, dp, extra) && dp in s.nodes && dp in s.inodes && ip !in s.inodes && ip !in s.nodes
    requires s1.inodes == s.inodes[ip := s1.inodes[ip]][dp := s.inodes[dp].(nlink := s.inodes[dp].nlink + 1)]
    requires s1.nodes == s.nodes[ip := Node(DIR, 1, [])][dp := Adjust(s.nodes[dp], 1)]
    requires s1.logged <= s.logged + {sb.InodeBlock(ip), sb.InodeBlock(dp)} && s1.left == s.left
    ensures Prepared(sb, s, s', dp, DIR, ip, extra)
  {
    if ip < INUMS && dp < INUMS {
      assert s'.nodes == s.nodes[ip := Node(DIR, 1, [])][dp := Adjust(s.nodes[dp], 1)][ip := NewNode(dp, DIR, ip)];
    }
  }

  datatype Made = New(inum: nat) | Old(inum: nat) | NotMade | MadePanic

  /** Why create can panic past the lookup. */
  predicate CreateStuck(s: Snap, ninodes: nat, dp: nat)
    requires dp in s.nodes && dp in s.inodes
  {
    var n, size := s.nodes[dp], s.inodes[dp].size;
    || size % DIRENT != 0 || s.left < 3 || (FirstFree(n.ents, 0) == |n.ents| && size + DIRENT > MAXBYTES)
    || forall j | 1 <= j < ninodes :: j in s.inodes
  }

  /** From s to s' create has made inode ip. */
  ghost predicate MadeIn(s: Snap, s': Snap, dp: nat, name: string, kind: Kind, ip: nat) {
    && |s'.logged| <= (if ip < INUMS then 9 else 10)
    && (ip < INUMS && dp < INUMS ==>
          var t := TreeOf(s.nodes);
          CanAdd(t, dp, name) && ip !in t.nodes && s'.nodes == Create(t, dp, name, kind, ip).nodes)
  }

  /** dirlookup on the tree. */
  method Look(fs: FileSys, d: nat, name: string) returns (r: Looked)
    requires fs.Valid() && d in fs.inodes && fs.inodes[d].kind == T_DIR
    modifies fs`bits, fs`blocks, fs`logged, fs`inodes, fs`owner
    ensures fs.Img() == old(fs.Img()) && fs.Valid() && At(fs) == old(At(fs)) && d in At(fs).nodes
            && At(fs).nodes[d].kind == DIR
    ensures var n := At(fs).nodes[d];
            r == if Present(n, name) then Hit(Find(n.ents, name, 0), n.ents[Find(n.ents, name, 0)].inum)
            else if fs.inodes[d].size % DIRENT == 0 then Miss else LookPanic
    ensures r.Miss? ==> |At(fs).nodes[d].ents| * DIRENT == fs.inodes[d].size
    ensures r.Hit? ==> DIRENT * r.k + DIRENT <= fs.inodes[d].size
  {
    hide FileSys.Valid, FileSys.Contents, FileSys.Files, FreeCount;
    NodeAt(fs, d);
    r := Dirlookup(fs, d, name);
    NodeAt(fs, d);
  }

  /** create in directory dp, as one log operation. The files change as Directory.Create changes the tree, and at most
      nine blocks are logged. */
  method CreateIn(fs: FileSys, ninodes: nat, dp: nat, name: string, kind: Kind) returns (r: Made)
    requires fs.Valid() && dp in fs.inodes && fs.inodes[dp].kind == T_DIR && Plain(name)
    modifies fs`bits, fs`blocks, fs`logged, fs`inodes, fs`dinodes, fs`owner
    ensures r.New? ==> fs.Valid() && 1 <= r.inum < ninodes && MadeIn(old(At(fs)), At(fs), dp, name, kind, r.inum)
    ensures dp in old(At(fs)).nodes
    ensures var n := old(At(fs)).nodes[dp];
            if Present(n, name) then
              var ip := n.ents[Find(n.ents, name, 0)].inum;
              r == if ip !in old(fs.inodes) then MadePanic
              else if kind == FILE && old(fs.inodes)[ip].kind == KindNumber(FILE) then Old(ip) else NotMade
            else r.New? || (r.MadePanic? && (ninodes <= INUMS ==> CreateStuck(old(At(fs)), ninodes, dp)))
    ensures r.Old? || r.NotMade? ==> fs.Valid() && At(fs) == old(At(fs)).(logged := {})
    ensures Journaled(fs.sb, old(fs.Now()).(logged := {}), fs.Now())
  {
    hide FileSys.Valid, Nodes, Journaled, FreeCount, MadeIn, Find, CreateStuck;
    ghost var s := At(fs);
    SameKeys(fs);
    fs.logged := {};
    assert fs.Valid() && At(fs) == s.(logged := {});
    JournaledSame(fs.sb, fs.Now());
    var found := Look(fs, dp, name);
    if found.Hit? {
      if found.inum !in fs.inodes {
        return MadePanic;
      }
      return if kind == FILE && fs.inodes[found.inum].kind == KindNumber(FILE) then Old(found.inum) else NotMade;
    }
    if found.LookPanic? {
      BrokenSize(s, ninodes, dp);
      return MadePanic;
    }
    ghost var v1 := fs.Now();
    var made := Make(fs, ninodes, dp, name, kind, s);
    JournaledChain(fs.sb, old(fs.Now()).(logged := {}), v1, fs.Now());
    if made.None? {
      return MadePanic;
    }
    r := New(made.value);
  }

  lemma BrokenSize(s: Snap, ninodes: nat, dp: nat)
    requires dp in s.nodes && dp in s.inodes && s.inodes[dp].size % DIRENT != 0
    ensures CreateStuck(s, ninodes, dp)
  {
  }

  /** create past the lookup. */
  method Make(fs: FileSys, ninodes: nat, dp: nat, name: string, kind: Kind, ghost s: Snap) returns (r: Option<nat>)
    requires fs.Valid() && dp in fs.inodes && fs.inodes[dp].kind == T_DIR && Plain(name) && At(fs) == s.(logged := {})
    requires dp in s.nodes && s.nodes[dp].kind == DIR && !Present(s.nodes[dp], name) && s.inodes[dp].size % DIRENT == 0
    modifies fs`bits, fs`blocks, fs`logged, fs`inodes, fs`dinodes, fs`owner
    ensures r.Some? ==> 1 <= r.value < ninodes && fs.Valid() && MadeIn(s, At(fs), dp, name, kind, r.value)
    ensures r.None? && ninodes <= INUMS ==> CreateStuck(s, ninodes, dp)
    ensures Journaled(fs.sb, old(fs.Now()), fs.Now())
  {
    hide FileSys.Valid, Journaled, FreeCount, Prepared, Wrote, Find, FirstFree, Nodes, MadeIn, Create, CanAdd;
    SameKeys(fs);
    ghost var s0, v0 := At(fs), fs.Now();
    ghost var extra, more;
    r, extra := Prepare(fs, ninodes, dp, kind);
    if r.None? {
      return;
    }
    ghost var s1, v1 := At(fs), fs.Now();
    PreparedFacts(fs.sb, s0, s1, dp, kind, r.value, extra);
    var res;
    res, more := Dirlink(fs, dp, name, r.value);
    JournaledChain(fs.sb, v0, v1, fs.Now());
    if res != Ret(0) {
      return None;
    }
    Created(fs.sb, s0, s1, At(fs), dp, name, kind, r.value, extra, more);
    SameTree(s0, s, At(fs), dp, name, kind, r.value);
  }

  lemma SameTree(s0: Snap, s: Snap, s': Snap, dp: nat, name: string, kind: Kind, ip: nat)
    requires MadeIn(s0, s', dp, name, kind, ip) && s0.nodes == s.nodes
    ensures MadeIn(s, s', dp, name, kind, ip)
  {
  }

  lemma PreparedFacts(sb: Super, s: Snap, s': Snap, dp: nat, kind: Kind, ip: nat, extra: set<nat>)
    requires Prepared(sb, s, s', dp, kind, ip, extra)
    ensures dp in s.nodes && dp in s.inodes && dp in s'.nodes && dp in s'.inodes
            && s'.nodes[dp].ents == s.nodes[dp].ents
    ensures ip !in s.inodes
    ensures s'.inodes[dp].kind == s.inodes[dp].kind && s'.inodes[dp].size == s.inodes[dp].size
    ensures ip < INUMS ==> s.left <= s'.left + 1
  {
  }

  lemma Created(sb: Super, s: Snap, s1: Snap, s': Snap, dp: nat, name: string, kind: Kind, ip: nat, extra: set<nat>,
                more: set<nat>)
    requires Prepared(sb, s, s1, dp, kind, ip, extra) && s.nodes[dp].kind == DIR && !Present(s.nodes[dp], name)
             && ip !in s.nodes && s.logged == {}
    requires Wrote(sb, s1, s', dp, FirstFree(s1.nodes[dp].ents, 0), Dirent(ip % INUMS, Clip(name)), more)
    ensures MadeIn(s, s', dp, name, kind, ip)
  {
    hide Find, FirstFree, PutEnt;
    var two := {sb.InodeBlock(ip), sb.InodeBlock(dp)};
    CardUnion(extra, two);
    CardUnion(extra + two, more);
    CardSubset(s'.logged, extra + two + more);
    if ip < INUMS && dp < INUMS {
      var t := TreeOf(s.nodes);
      var slot := if kind == DIR then t.slot[ip := FirstFree(s.nodes[dp].ents, 0)] else t.slot;
      Placed(t, dp, name, kind, ip, t.(nodes := s1.nodes, slot := slot));
    }
  }

  // ---------------------------------------------------------------- unlink

  /** isdirempty; None is its panic on a short read. */
  method Isdirempty(fs: FileSys, d: nat) returns (r: Option<bool>)
    requires fs.Valid() && d in fs.inodes
    modifies fs`bits, fs`blocks, fs`logged, fs`inodes, fs`owner
    ensures fs.Img() == old(fs.Img()) && fs.logged == old(fs.logged) && fs.Valid()
    ensures fs.Contents(d) == old(fs.Contents(d)) && fs.Files() == old(fs.Files())
    ensures r == Emptiness(Decode(fs.Contents(d)), fs.inodes[d].size)
  {
    hide FileSys.Valid, FileSys.Contents, FileSys.Files, DecodeEnt;
    SmallFile(fs, d);
    ghost var ents := Decode(fs.Contents(d));
    var k := 2;
    while DIRENT * k < fs.inodes[d].size
      invariant 2 <= k && (k == 2 || k <= |ents|) && forall j | 2 <= j < k && j < |ents| :: ents[j].inum == 0
      invariant fs.Img() == old(fs.Img()) && fs.logged == old(fs.logged) && fs.Valid()
      invariant fs.Contents(d) == old(fs.Contents(d)) && fs.Files() == old(fs.Files())
    {
      var e := ReadEnt(fs, d, k);
      if e.None? {
        return None;
      }
      if e.value.inum != 0 {
        return Some(false);
      }
      k := k + 1;
    }
    r := Some(true);
  }

  /** A used entry past the first two decides; the scan panics at a last piece that is no entry. */
  function Emptiness(ents: seq<Dirent>, size: nat): (r: Option<bool>) {
    if !EmptyFrom(ents, 2) then Some(false) else if 2 * DIRENT < size && size % DIRENT != 0 then None else Some(true)
  }

  /** isdirempty on the tree. */
  method LookEmpty(fs: FileSys, d: nat) returns (r: Option<bool>)
    requires fs.Valid() && d in fs.inodes && fs.inodes[d].kind == T_DIR
    modifies fs`bits, fs`blocks, fs`logged, fs`inodes, fs`owner
    ensures fs.Img() == old(fs.Img()) && fs.Valid() && At(fs) == old(At(fs)) && d in At(fs).nodes
    ensures r == Emptiness(At(fs).nodes[d].ents, fs.inodes[d].size)
  {
    hide FileSys.Valid, FileSys.Contents, FileSys.Files, FreeCount, Decode;
    NodeAt(fs, d);
    r := Isdirempty(fs, d);
    NodeAt(fs, d);
  }

  /** iput of the last reference to an inode without links, as it changes the tree. */
  method FreeNode(fs: FileSys, i: nat)
    requires fs.Valid() && i in fs.inodes
    modifies fs`bits, fs`logged, fs`inodes, fs`dinodes, fs`owner
    ensures fs.Valid() && At(fs).nodes == old(At(fs)).nodes - {i}
    ensures fs.logged == old(fs.logged) + {fs.sb.InodeBlock(i)} + MapsOf(fs.sb, old(fs.owner), i)
    ensures |MapsOf(fs.sb, old(fs.owner), i)| <= MapBlocks(fs.sb)
    ensures Journaled(fs.sb, old(fs.Now()), fs.Now())
  {
    hide FileSys.Valid, FileSys.Contents, FileSys.Files, FreeCount, Journaled, MapsOf, Decode;
    FilesContents(fs);
    FewMaps(fs, i);
    fs.Ifree(i);
    FilesContents(fs);
  }

  lemma FewMaps(fs: FileSys, i: nat)
    requires fs.Valid()
    ensures |MapsOf(fs.sb, fs.owner, i)| <= MapBlocks(fs.sb)
  {
    hide Mapped, OwnsItsBlocks, Refers;
    IntervalCard(MapsOf(fs.sb, fs.owner, i), fs.sb.bmapstart, fs.sb.datastart);
  }

  /** What unlink of name in dp finds, when it goes through: the entry and its inode. */
  predicate CanUnlink(s: Snap, dp: nat, name: string) {
    && dp in s.nodes && Present(s.nodes[dp], name) && Clip(name) != "." && Clip(name) != ".."
    && var ip := s.nodes[dp].ents[Find(s.nodes[dp].ents, name, 0)].inum;
    && ip != dp && ip in s.nodes && ip in s.inodes && s.nodes[ip].nlink >= 1
    && (s.nodes[ip].kind == DIR ==> Emptiness(s.nodes[ip].ents, s.inodes[ip].size) == Some(true))
  }

  /** sys_unlink has removed the name from dp, and the inode too if that was its last link and `last` its last
      reference. */
  ghost predicate Unlinked(sb: Super, s: Snap, s': Snap, dp: nat, name: string, last: bool) {
    && CanUnlink(s, dp, name)
    && var k := Find(s.nodes[dp].ents, name, 0);
    && var ip := s.nodes[dp].ents[k].inum;
    && var nodes := Cut(TreeOf(s.nodes), dp, k).nodes;
    && var freed := last && nodes[ip].nlink == 0;
    && s'.nodes == (if freed then nodes - {ip} else nodes)
    && |s'.logged| <= 3 + if freed then MapBlocks(sb) else 0
  }

  /** sys_unlink in directory dp, as one log operation; `last` says that nobody else holds the inode found. ilock of a
      freed inode is a panic, and so stands here a directory that lists itself, on which unlink waits for ever. */
  method UnlinkIn(fs: FileSys, dp: nat, name: string, last: bool) returns (r: Result)
    requires fs.Valid() && dp in fs.inodes && fs.inodes[dp].kind == T_DIR
    modifies fs`bits, fs`blocks, fs`logged, fs`inodes, fs`dinodes, fs`owner
    ensures r == Ret(0) || r == Ret(-1) || r.Panic?
    ensures r == Ret(0) <==> CanUnlink(old(At(fs)), dp, name)
    ensures r == Ret(0) ==> fs.Valid() && Unlinked(fs.sb, old(At(fs)), At(fs), dp, name, last)
    ensures r == Ret(-1) ==> fs.Valid() && At(fs) == old(At(fs)).(logged := {})
    ensures Journaled(fs.sb, old(fs.Now()).(logged := {}), fs.Now())
  {
    hide FileSys.Valid, Nodes, Journaled, FreeCount, Find, ClipTo, Cut, Unlinked;
    SameKeys(fs);
    ghost var s := At(fs);
    fs.logged := {};
    assert fs.Valid() && At(fs) == s.(logged := {});
    JournaledSame(fs.sb, fs.Now());
    if Clip(name) == "." || Clip(name) == ".." {
      return Ret(-1);
    }
    var found := Look(fs, dp, name);
    if !found.Hit? {
      return if found.Miss? then Ret(-1) else Panic;
    }
    var ip := found.inum;
    if ip == dp || ip !in fs.inodes || fs.inodes[ip].nlink < 1 {
      return Panic;
    }
    if fs.inodes[ip].kind == T_DIR {
      var empty := LookEmpty(fs, ip);
      if empty != Some(true) {
        return if empty.None? then Panic else Ret(-1);
      }
    }
    ghost var v1 := fs.Now();
    Remove(fs, dp, found.k, ip, last, name, s);
    JournaledChain(fs.sb, old(fs.Now()).(logged := {}), v1, fs.Now());
    r := Ret(0);
  }

  /** sys_unlink past its checks. */
  method Remove(fs: FileSys, dp: nat, k: nat, ip: nat, last: bool, ghost name: string, ghost s: Snap)
    requires fs.Valid() && dp in fs.inodes && fs.inodes[dp].kind == T_DIR && ip in fs.inodes
             && At(fs) == s.(logged := {})
    requires CanUnlink(s, dp, name) && k == Find(s.nodes[dp].ents, name, 0) && ip == s.nodes[dp].ents[k].inum
    requires DIRENT * k + DIRENT <= fs.inodes[dp].size
    modifies fs`bits, fs`blocks, fs`logged, fs`inodes, fs`dinodes, fs`owner
    ensures fs.Valid() && Unlinked(fs.sb, s, At(fs), dp, name, last)
    ensures Journaled(fs.sb, old(fs.Now()), fs.Now())
  {
    hide FileSys.Valid, Nodes, Journaled, FreeCount, Find, ClipTo, Cut, PutEnt, MapsOf;
    Erase(fs, dp, k, ip, s);
    SameKeys(fs);
    if last && fs.inodes[ip].nlink == 0 {
      ghost var v1, maps := fs.Now(), MapsOf(fs.sb, fs.owner, ip);
      FreeNode(fs, ip);
      JournaledChain(fs.sb, old(fs.Now()), v1, fs.Now());
      assert fs.logged == v1.logged + maps;
      CardUnion(v1.logged, maps);
    }
  }

  /** The entry goes, and the links it counted. */
  method Erase(fs: FileSys, dp: nat, k: nat, ip: nat, ghost s: Snap)
    requires fs.Valid() && dp in fs.inodes && fs.inodes[dp].kind == T_DIR && ip in fs.inodes
             && At(fs) == s.(logged := {})
    requires dp in s.nodes && k < |s.nodes[dp].ents| && ip == s.nodes[dp].ents[k].inum && ip in s.nodes && ip != dp
    requires DIRENT * k + DIRENT <= fs.inodes[dp].size
    modifies fs`bits, fs`blocks, fs`logged, fs`inodes, fs`dinodes, fs`owner
    ensures fs.Valid() && ip in fs.inodes && At(fs).nodes == Cut(TreeOf(s.nodes), dp, k).nodes
    ensures |fs.logged| <= 3 && fs.sb.InodeBlock(ip) in fs.logged
    ensures Journaled(fs.sb, old(fs.Now()), fs.Now())
  {
    hide FileSys.Valid, Nodes, Journaled, FreeCount, Cut, PutEnt, Wrote, DecodeEnt;
    SameKeys(fs);
    ZeroEnt();
    ghost var s0 := At(fs);
    var ok, extra := WriteEnt(fs, dp, k, seq(DIRENT, _ => 0));
    WroteFacts(fs.sb, s0, At(fs), dp, k, extra);
    ghost var v1, s1 := fs.Now(), At(fs);
    Uncount(fs, dp, ip);
    JournaledChain(fs.sb, old(fs.Now()), v1, fs.Now());
    CutDone(s0, s1, At(fs), dp, k, ip);
    ghost var two := {fs.sb.InodeBlock(dp), fs.sb.InodeBlock(ip)};
    CardUnion(extra, two);
    CardSubset(fs.logged, extra + two);
  }

  /** ip has one link less, and if it is a directory dp as well. */
  method Uncount(fs: FileSys, dp: nat, ip: nat)
    requires fs.Valid() && dp in fs.inodes && ip in fs.inodes && ip != dp
    modifies fs`logged, fs`inodes, fs`dinodes
    ensures fs.Valid() && dp in old(At(fs)).nodes && ip in old(At(fs)).nodes && fs.inodes.Keys == old(fs.inodes.Keys)
    ensures var nodes := old(At(fs)).nodes;
            At(fs).nodes == nodes[dp := if nodes[ip].kind == DIR then Adjust(nodes[dp], -1)
            else nodes[dp]][ip := Adjust(nodes[ip], -1)]
    ensures old(fs.logged) + {fs.sb.InodeBlock(ip)} <= fs.logged <= old(fs.logged)
            + {fs.sb.InodeBlock(dp), fs.sb.InodeBlock(ip)}
    ensures Journaled(fs.sb, old(fs.Now()), fs.Now())
  {
    hide FileSys.Valid, Nodes, Journaled, FreeCount;
    SameKeys(fs);
    JournaledSame(fs.sb, fs.Now());
    if fs.inodes[ip].kind == T_DIR {
      Relink(fs, dp, fs.inodes[dp].nlink - 1);
    }
    ghost var v1 := fs.Now();
    Relink(fs, ip, fs.inodes[ip].nlink - 1);
    JournaledChain(fs.sb, old(fs.Now()), v1, fs.Now());
  }

  /** What remains of an entry erased in place. */
  lemma WroteFacts(sb: Super, s: Snap, s': Snap, d: nat, k: nat, extra: set<nat>)
    requires Wrote(sb, s, s', d, k, Dirent(0, ""), extra) && DIRENT * k < s.inodes[d].size
    ensures s'.inodes.Keys == s.inodes.Keys && s'.logged <= s.logged + extra && |extra| <= 1
    ensures k <= |s.nodes[d].ents|
            && s'.nodes == s.nodes[d := s.nodes[d].(ents := PutEnt(s.nodes[d].ents, k, Dirent(0, "")))]
  {
  }

  lemma CutDone(s: Snap, s1: Snap, s': Snap, dp: nat, k: nat, ip: nat)
    requires dp in s.nodes && k < |s.nodes[dp].ents| && ip == s.nodes[dp].ents[k].inum && ip in s.nodes && ip != dp
    requires s1.nodes == s.nodes[dp := s.nodes[dp].(ents := PutEnt(s.nodes[dp].ents, k, Dirent(0, "")))]
    requires s'.nodes == s1.nodes[dp := if s1.nodes[ip].kind == DIR then Adjust(s1.nodes[dp], -1) else s1.nodes[dp]]
                         [ip := Adjust(s1.nodes[ip], -1)]
    ensures s'.nodes == Cut(TreeOf(s.nodes), dp, k).nodes
  {
  }

  // ---------------------------------------------------------------- link

  /** From s to s' sys_link has entered ip in dp. */
  ghost predicate LinkedIn(s: Snap, s': Snap, ip: nat, dp: nat, name: string) {
    && |s'.logged| <= 6
    && (ip < INUMS ==>
          && ip in s.nodes && CanAdd(LinkBegin(TreeOf(s.nodes), ip), dp, name)
          && s'.nodes == LinkEnd(LinkBegin(TreeOf(s.nodes), ip), dp, name, ip).nodes)
  }

  /** sys_link of the inode ip as `name` in dp, as one log operation that nobody interrupts. */
  method LinkIn(fs: FileSys, ip: nat, dp: nat, name: string) returns (r: Result)
    requires fs.Valid() && dp in fs.inodes && fs.inodes[dp].kind == T_DIR && ip in fs.inodes && Plain(name)
    modifies fs`bits, fs`blocks, fs`logged, fs`inodes, fs`dinodes, fs`owner
    ensures r == Ret(0) || r == Ret(-1) || r.Panic?
    ensures dp in old(At(fs)).nodes
            && (r == Ret(-1) <==> old(fs.inodes[ip].kind) == T_DIR || Present(old(At(fs)).nodes[dp], name))
    ensures r == Ret(-1) ==> fs.Valid() && Nodes(fs) == old(Nodes(fs)) && fs.logged <= {fs.sb.InodeBlock(ip)}
    ensures r == Ret(0) ==> fs.Valid() && LinkedIn(old(At(fs)), At(fs), ip, dp, name)
    ensures Journaled(fs.sb, old(fs.Now()).(logged := {}), fs.Now())
  {
    hide FileSys.Valid, Nodes, Journaled, FreeCount, Wrote, Find, FirstFree, LinkedIn, Stuck;
    SameKeys(fs);
    ghost var s := At(fs);
    fs.logged := {};
    assert fs.Valid() && At(fs) == s.(logged := {});
    JournaledSame(fs.sb, fs.Now());
    if fs.inodes[ip].kind == T_DIR {
      return Ret(-1);
    }
    Relink(fs, ip, fs.inodes[ip].nlink + 1);
    ghost var v1 := fs.Now();
    r := LinkRest(fs, ip, dp, name, s);
    JournaledChain(fs.sb, old(fs.Now()).(logged := {}), v1, fs.Now());
  }

  /** sys_link from dirlink on: the entry, or nlink as it was. */
  method LinkRest(fs: FileSys, ip: nat, dp: nat, name: string, ghost s: Snap) returns (r: Result)
    requires fs.Valid() && dp in fs.inodes && fs.inodes[dp].kind == T_DIR && ip in fs.inodes && ip != dp && Plain(name)
    requires ip in s.nodes && dp in s.nodes && s.nodes[dp].kind == DIR && fs.inodes[ip].nlink == s.nodes[ip].nlink + 1
    requires At(fs).nodes == s.nodes[ip := Adjust(s.nodes[ip], 1)] && fs.logged == {fs.sb.InodeBlock(ip)}
    modifies fs`bits, fs`blocks, fs`logged, fs`inodes, fs`dinodes, fs`owner
    ensures r == Ret(0) || r == Ret(-1) || r.Panic?
    ensures r == Ret(-1) <==> Present(s.nodes[dp], name)
    ensures r == Ret(-1) ==> fs.Valid() && Nodes(fs) == s.nodes && fs.logged == {fs.sb.InodeBlock(ip)}
    ensures r == Ret(0) ==> fs.Valid() && LinkedIn(s, At(fs), ip, dp, name)
    ensures Journaled(fs.sb, old(fs.Now()), fs.Now())
  {
    hide FileSys.Valid, Nodes, Journaled, FreeCount, Wrote, Find, FirstFree, LinkedIn, Stuck;
    ghost var s1, extra := At(fs), {};
    r, extra := Dirlink(fs, dp, name, ip);
    if r == Ret(-1) {
      ghost var v1 := fs.Now();
      Relink(fs, ip, fs.inodes[ip].nlink - 1);
      JournaledChain(fs.sb, old(fs.Now()), v1, fs.Now());
      assert Nodes(fs) == s.nodes;
    } else if r == Ret(0) {
      LinkDone(fs.sb, s, s1, At(fs), ip, dp, name, extra);
    }
  }

  lemma LinkDone(sb: Super, s: Snap, s1: Snap, s': Snap, ip: nat, dp: nat, name: string, extra: set<nat>)
    requires ip in s.nodes && dp in s.nodes && ip != dp && s.nodes[dp].kind == DIR && !Present(s.nodes[dp], name)
    requires s1.nodes == s.nodes[ip := Adjust(s.nodes[ip], 1)] && s1.logged == {sb.InodeBlock(ip)}
    requires Wrote(sb, s1, s', dp, FirstFree(s.nodes[dp].ents, 0), Dirent(ip % INUMS, Clip(name)), extra)
    ensures LinkedIn(s, s', ip, dp, name)
  {
    hide Find, FirstFree, PutEnt;
    var two := {sb.InodeBlock(ip), sb.InodeBlock(dp)};
    CardUnion(extra, two);
    CardSubset(s'.logged, extra + two);
  }

  // ---------------------------------------------------------------- the link counts on the volume

  /** create on the volume keeps every count exact and every name on an allocated inode, in a linked directory. */
  lemma CreateOnVolume(t: Tree, s: Snap, s': Snap, dp: nat, name: string, kind: Kind, ip: nat)
    requires Inv(t) && t.nodes == s.nodes && MadeIn(s, s', dp, name, kind, ip)
    requires 0 < ip < INUMS && dp < INUMS && dp in t.nodes && Linked(t.nodes[dp])
    ensures CanAdd(t, dp, name) && ip !in t.nodes
    ensures var t' := Create(t, dp, name, kind, ip); Inv(t') && t'.nodes == s'.nodes
  {
    hide Inv;
    CreateKeeps(t, dp, name, kind, ip);
  }

  /** unlink on the volume keeps them too, when it frees the inode exactly if no process holds it. */
  lemma UnlinkOnVolume(t: Tree, sb: Super, s: Snap, s': Snap, dp: nat, name: string)
    requires Inv(t) && t.nodes == s.nodes && dp in t.nodes && Linked(t.nodes[dp]) && CanCut(t, dp, name)
    requires Unlinked(sb, s, s', dp, name, t.nodes[dp].ents[Find(t.nodes[dp].ents, name, 0)].inum !in t.held)
    ensures var t' := Unlink(t, dp, name); Inv(t') && t'.nodes == s'.nodes
  {
    hide Inv, Find;
    UnlinkKeeps(t, dp, name);
    FileTree.NotLast(t, dp, name);
  }
}
