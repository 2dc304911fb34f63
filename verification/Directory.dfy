/** sysfile.c's create, link and unlink over fs.c's directories: link counts against the entries that
    name each inode. A link is two steps, because sys_link lets go of the inode in between. */
module Directory {

  const DIRSIZ := 14
  const ROOTINO := 1

  datatype Kind = DIR | FILE | DEV

  /** struct dirent: inum 0 marks a free slot. */
  datatype Dirent = Dirent(inum: nat, name: string)

  /** An allocated inode; ents is the content of a directory. */
  datatype Node = Node(kind: Kind, nlink: int, ents: seq<Dirent>)

  /** The allocated inodes, the references processes hold to them (open files, current directories), the
      links that have raised nlink and not yet written their entry, and at which entry of its parent each
      linked directory is listed. */
  datatype Tree = Tree(nodes: map<nat, Node>, held: multiset<nat>, pending: multiset<nat>, slot: map<nat, nat>)

  // ---------------------------------------------------------------- names

  /** What strncmp and strncpy with DIRSIZ see of a name. */
  function Clip(s: string): (r: string)
    ensures |r| <= DIRSIZ && r <= s && '\0' !in r
  {
    ClipTo(s, DIRSIZ)
  }

  function ClipTo(s: string, n: nat): (r: string)
    ensures |r| <= n && r <= s && '\0' !in r
    ensures '\0' !in s && |s| <= n ==> r == s
  {
    if s == "" || n == 0 || s[0] == '\0' then "" else [s[0]] + ClipTo(s[1..], n - 1)
  }

  lemma ClipTwice(s: string)
    ensures Clip(Clip(s)) == Clip(s)
  {
  }

  // ---------------------------------------------------------------- who names an inode

  predicate Linked(n: Node) { n.kind == DIR && n.nlink >= 1 }

  predicate Names(n: Node, k: nat, i: nat) {
    k < |n.ents| && n.ents[k].inum == i && n.ents[k].name != "."
  }

  /** The entries other than "." of linked directories that name inode i. */
  function Refs(nodes: map<nat, Node>, i: nat): (r: set<(nat, nat)>) {
    set d, k | d in nodes && 0 <= k < |nodes[d].ents| && Linked(nodes[d]) && Names(nodes[d], k, i) :: (d, k)
  }

  /** "." and ".." come first; used names are distinct and already clipped. */
  ghost predicate DirShape(n: Node, d: nat) {
    && |n.ents| >= 2
    && n.ents[0] == Dirent(d, ".") && n.ents[1].name == ".." && n.ents[1].inum != 0
    && (forall k | 0 <= k < |n.ents| && n.ents[k].inum != 0 :: n.ents[k].name == Clip(n.ents[k].name))
    && (forall j, k | 0 <= j < k < |n.ents| && n.ents[j].inum != 0 && n.ents[k].inum != 0 ::
          n.ents[j].name != n.ents[k].name)
  }

  predicate ListedAt(nodes: map<nat, Node>, d: nat, k: nat, c: nat) {
    d in nodes && Linked(nodes[d]) && 2 <= k < |nodes[d].ents| && nodes[d].ents[k].inum == c
  }

  /** A linked directory other than the root is listed in the directory its ".." names; an unlinked one holds
      nothing else than "." and "..". */
  ghost predicate DirOk(t: Tree, d: nat)
    requires d in t.nodes
  {
    var n := t.nodes[d];
    && DirShape(n, d)
    && (Linked(n) ==> if d == ROOTINO then n.ents[1].inum == ROOTINO
          else d in t.slot && ListedAt(t.nodes, n.ents[1].inum, t.slot[d], d))
    && (!Linked(n) ==> EmptyFrom(n.ents, 2))
  }

  /** What entry k >= 2 of a linked directory d names exists and is not the root; if it is a directory,
      then it is linked, d is its parent, and it is listed nowhere else. */
  ghost predicate EntryOk(t: Tree, d: nat, k: nat)
    requires d in t.nodes && k < |t.nodes[d].ents|
  {
    var e := t.nodes[d].ents[k].inum;
    e != 0 ==>
      && e in t.nodes && e != ROOTINO
      && (t.nodes[e].kind == DIR ==>
            Linked(t.nodes[e]) && DirShape(t.nodes[e], e) && t.nodes[e].ents[1].inum == d && e in t.slot
            && t.slot[e] == k)
  }

  ghost predicate Shaped(t: Tree) {
    && 0 !in t.nodes && ROOTINO in t.nodes && Linked(t.nodes[ROOTINO])
    && (forall d {:trigger DirOk(t, d)} | d in t.nodes && t.nodes[d].kind == DIR :: DirOk(t, d))
    && (forall d, k {:trigger EntryOk(t, d, k)} | d in t.nodes && Linked(t.nodes[d]) && 2 <= k < |t.nodes[d].ents| ::
          EntryOk(t, d, k))
    && (forall c | c in t.slot :: c in t.nodes && Linked(t.nodes[c]))
  }

  /** nlink counts the entries that name the inode and the links under way. */
  ghost predicate ExactAt(t: Tree, i: nat)
    requires i in t.nodes
  {
    t.nodes[i].nlink == |Refs(t.nodes, i)| + t.pending[i]
  }

  ghost predicate Exact(t: Tree) {
    forall i {:trigger ExactAt(t, i)} | i in t.nodes :: ExactAt(t, i)
  }

  /** What is referenced exists, and what exists is linked or referenced. */
  ghost predicate Alive(t: Tree) {
    && (forall i | i in t.held :: i in t.nodes)
    && (forall i | i in t.pending :: i in t.nodes && t.nodes[i].kind != DIR)
    && (forall i | i in t.nodes :: t.nodes[i].nlink >= 1 || i in t.held)
  }

  ghost predicate Inv(t: Tree) {
    Shaped(t) && Exact(t) && Alive(t)
  }

  /** The same while the caller still has inode i in hand: it may be unlinked and unreferenced. */
  ghost predicate InvBut(t: Tree, i: nat) {
    && Shaped(t) && Exact(t)
    && (forall j | j in t.held :: j in t.nodes)
    && (forall j | j in t.pending :: j in t.nodes && t.nodes[j].kind != DIR)
    && (forall j | j in t.nodes && j != i :: t.nodes[j].nlink >= 1 || j in t.held)
  }

  // ---------------------------------------------------------------- directory contents

  /** dirlookup's scan. */
  function Find(ents: seq<Dirent>, name: string, from: nat): (k: nat)
    requires from <= |ents|
    ensures from <= k <= |ents|
    ensures forall j | from <= j < k && ents[j].inum != 0 :: Clip(ents[j].name) != Clip(name)
    ensures k < |ents| ==> ents[k].inum != 0 && Clip(ents[k].name) == Clip(name)
    decreases |ents| - from
  {
    if from == |ents| then from
    else if ents[from].inum != 0 && Clip(ents[from].name) == Clip(name) then from
    else Find(ents, name, from + 1)
  }

  /** dirlink's search for an empty slot; the length if there is none. */
  function FirstFree(ents: seq<Dirent>, from: nat): (k: nat)
    requires from <= |ents|
    ensures from <= k <= |ents|
    ensures forall j | from <= j < k :: ents[j].inum != 0
    ensures k < |ents| ==> ents[k].inum == 0
    decreases |ents| - from
  {
    if from == |ents| || ents[from].inum == 0 then from else FirstFree(ents, from + 1)
  }

  /** writei of one dirent at slot k, inside or at the end. */
  function PutEnt(ents: seq<Dirent>, k: nat, de: Dirent): (r: seq<Dirent>)
    requires k <= |ents|
    ensures |r| == if k < |ents| then |ents| else |ents| + 1
    ensures forall j | 0 <= j < |r| :: r[j] == if j == k then de else ents[j]
  {
    if k < |ents| then ents[k := de] else ents + [de]
  }

  /** isdirempty */
  predicate EmptyFrom(ents: seq<Dirent>, from: nat) {
    forall k | from <= k < |ents| :: ents[k].inum == 0
  }

  // ---------------------------------------------------------------- steps

  function Adjust(n: Node, d: int): Node { n.(nlink := n.nlink + d) }

  /** The directory after dirlink of a name it does not hold. */
  function WithEntry(n: Node, name: string, i: nat): (r: Node) {
    n.(ents := PutEnt(n.ents, FirstFree(n.ents, 0), Dirent(i, Clip(name))))
  }

  predicate CanAdd(t: Tree, dp: nat, name: string) {
    dp in t.nodes && t.nodes[dp].kind == DIR && Find(t.nodes[dp].ents, name, 0) == |t.nodes[dp].ents|
  }

  function NewNode(dp: nat, kind: Kind, ip: nat): (n: Node) {
    Node(kind, 1, if kind == DIR then [Dirent(ip, "."), Dirent(dp, "..")] else [])
  }

  /** create, past the lookup: inode ip is free. */
  function Create(t: Tree, dp: nat, name: string, kind: Kind, ip: nat): (r: Tree)
    requires CanAdd(t, dp, name) && ip !in t.nodes
  {
    var n := t.nodes[dp];
    Tree(t.nodes[dp := WithEntry(Adjust(n, if kind == DIR then 1 else 0), name, ip)][ip := NewNode(dp, kind, ip)],
         t.held + multiset{ip}, t.pending, if kind == DIR then t.slot[ip := FirstFree(n.ents, 0)] else t.slot)
  }

  /** sys_link up to iunlock(ip). */
  function LinkBegin(t: Tree, ip: nat): (r: Tree)
    requires ip in t.nodes
  {
    t.(nodes := t.nodes[ip := Adjust(t.nodes[ip], 1)], pending := t.pending + multiset{ip})
  }

  /** sys_link's dirlink and iput. */
  function LinkEnd(t: Tree, dp: nat, name: string, ip: nat): (r: Tree)
    requires CanAdd(t, dp, name)
  {
    t.(nodes := t.nodes[dp := WithEntry(t.nodes[dp], name, ip)], pending := t.pending - multiset{ip})
  }

  /** The freeing half of iput, when the caller's was the last reference. */
  function Reap(t: Tree, i: nat): (r: Tree) {
    if i in t.nodes && t.nodes[i].nlink == 0 && i !in t.held && i !in t.pending then t.(nodes := t.nodes - {i}) else t
  }

  /** sys_link's bad: path. */
  function LinkAbort(t: Tree, ip: nat): (r: Tree)
    requires ip in t.nodes
  {
    Reap(t.(nodes := t.nodes[ip := Adjust(t.nodes[ip], -1)], pending := t.pending - multiset{ip}), ip)
  }

  /** sys_unlink past its checks: entry k of dp names ip. */
  function Cut(t: Tree, dp: nat, k: nat): (r: Tree)
    requires dp in t.nodes && k < |t.nodes[dp].ents| && t.nodes[dp].ents[k].inum in t.nodes
             && t.nodes[dp].ents[k].inum != dp
  {
    var ip := t.nodes[dp].ents[k].inum;
    var dir := t.nodes[ip].kind == DIR;
    var parent := Adjust(t.nodes[dp], if dir then -1 else 0);
    t.(nodes := t.nodes[dp := parent.(ents := PutEnt(parent.ents, k, Dirent(0, "")))][ip := Adjust(t.nodes[ip], -1)],
    slot := if dir then t.slot - {ip} else t.slot)
  }

  /** A process takes or drops a reference. */
  function Get(t: Tree, i: nat): (r: Tree) { t.(held := t.held + multiset{i}) }

  function Put(t: Tree, i: nat): (r: Tree) { Reap(t.(held := t.held - multiset{i}), i) }

  // ---------------------------------------------------------------- how the steps change the counts

  /** One directory gets a new entry in a free place. */
  lemma RefsAdd(nodes: map<nat, Node>, dp: nat, n: Node, k: nat, de: Dirent, j: nat)
    requires dp in nodes && Linked(nodes[dp]) && Linked(n) && j != 0 && de.name != "."
    requires k <= |nodes[dp].ents| && (k < |nodes[dp].ents| ==> nodes[dp].ents[k].inum == 0)
    requires n.ents == PutEnt(nodes[dp].ents, k, de)
    ensures Refs(nodes[dp := n], j) == Refs(nodes, j) + (if j == de.inum then {(dp, k)} else {})
    ensures (dp, k) !in Refs(nodes, j)
  {
    var A, B := Refs(nodes[dp := n], j), Refs(nodes, j) + (if j == de.inum then {(dp, k)} else {});
    forall x | x in A ensures x in B {}
    forall x | x in B ensures x in A {}
  }

  /** One directory loses an entry. */
  lemma RefsCut(nodes: map<nat, Node>, dp: nat, n: Node, k: nat, j: nat)
    requires dp in nodes && Linked(nodes[dp]) && Linked(n) && j != 0 && k < |nodes[dp].ents|
             && nodes[dp].ents[k].name != "."
    requires n.ents == PutEnt(nodes[dp].ents, k, Dirent(0, ""))
    ensures Refs(nodes[dp := n], j) == Refs(nodes, j) - (if j == nodes[dp].ents[k].inum then {(dp, k)} else {})
    ensures j == nodes[dp].ents[k].inum ==> (dp, k) in Refs(nodes, j)
  {
    var A, B := Refs(nodes[dp := n], j), Refs(nodes, j) - (if j == nodes[dp].ents[k].inum then {(dp, k)} else {});
    forall x | x in A ensures x in B {}
    forall x | x in B ensures x in A {}
  }

  /** An inode appears, or changes without starting or ceasing to be a linked directory. */
  lemma RefsSame(nodes: map<nat, Node>, i: nat, n: Node, j: nat)
    requires i in nodes ==> Linked(n) == Linked(nodes[i]) && (Linked(n) ==> n.ents == nodes[i].ents)
    requires i !in nodes ==> !Linked(n)
    ensures Refs(nodes[i := n], j) == Refs(nodes, j)
  {
    var A, B := Refs(nodes[i := n], j), Refs(nodes, j);
    forall x | x in A ensures x in B {}
    forall x | x in B ensures x in A {}
  }

  /** A new empty directory counts its parent. */
  lemma RefsNewDir(nodes: map<nat, Node>, ip: nat, dp: nat, j: nat)
    requires ip !in nodes
    ensures Refs(nodes[ip := NewNode(dp, DIR, ip)], j) == Refs(nodes, j) + (if j == dp then {(ip, 1)} else {})
    ensures (ip, 1) !in Refs(nodes, j)
  {
    var n := NewNode(dp, DIR, ip);
    var A, B := Refs(nodes[ip := n], j), Refs(nodes, j) + (if j == dp then {(ip, 1)} else {});
    assert Names(n, 1, dp);
    forall x | x in A ensures x in B {}
    forall x | x in B ensures x in A {}
  }

  /** A directory that holds nothing but "." and ".." stops counting its parent. */
  lemma RefsGone(nodes: map<nat, Node>, ip: nat, n: Node, j: nat)
    requires ip in nodes && Linked(nodes[ip]) && DirShape(nodes[ip], ip) && EmptyFrom(nodes[ip].ents, 2) && !Linked(n)
             && j != 0
    ensures Refs(nodes[ip := n], j) == Refs(nodes, j) - (if j == nodes[ip].ents[1].inum then {(ip, 1)} else {})
    ensures j == nodes[ip].ents[1].inum ==> (ip, 1) in Refs(nodes, j)
  {
    var A, B := Refs(nodes[ip := n], j), Refs(nodes, j) - (if j == nodes[ip].ents[1].inum then {(ip, 1)} else {});
    assert j == nodes[ip].ents[1].inum ==> Names(nodes[ip], 1, j);
    forall x | x in A ensures x in B {}
    forall x | x in B ensures x in A {}
  }

  /** Entries of linked directories name allocated inodes only. */
  lemma NamedExists(t: Tree, d: nat, k: nat)
    requires Shaped(t) && d in t.nodes && Linked(t.nodes[d]) && k < |t.nodes[d].ents| && t.nodes[d].ents[k].inum != 0
    ensures t.nodes[d].ents[k].inum in t.nodes
  {
    assert DirOk(t, d);
    if k >= 2 { assert EntryOk(t, d, k); }
  }

  lemma NoRefsToFree(t: Tree, i: nat)
    requires Shaped(t) && i !in t.nodes && i != 0
    ensures Refs(t.nodes, i) == {}
  {
    forall x | x in Refs(t.nodes, i) ensures false {
      NamedExists(t, x.0, x.1);
    }
  }

  lemma Unnamed(nodes: map<nat, Node>, i: nat)
    requires Refs(nodes, i) == {}
    ensures forall d, k | d in nodes && Linked(nodes[d]) && 0 <= k < |nodes[d].ents| && nodes[d].ents[k].name != "." ::
              nodes[d].ents[k].inum != i
  {
    forall d, k | d in nodes && Linked(nodes[d]) && 0 <= k < |nodes[d].ents| && nodes[d].ents[k].name != "."
      ensures nodes[d].ents[k].inum != i
    {
      assert Names(nodes[d], k, i) ==> (d, k) in Refs(nodes, i);
    }
  }

  /** iput frees an inode only when no entry of a linked directory names it. */
  lemma ReapKeeps(t: Tree, i: nat)
    requires InvBut(t, i)
    ensures Inv(Reap(t, i))
  {
    hide Refs;
    var r := Reap(t, i);
    if i in t.nodes && t.nodes[i].nlink == 0 && i !in t.held && i !in t.pending {
      assert ExactAt(t, i);
      Unnamed(t.nodes, i);
      ReapShaped(t, i);
      hide Shaped;
      forall j | j in r.nodes ensures ExactAt(r, j) {
        assert ExactAt(t, j);
        RefsRemove(t.nodes, i, j);
      }
    }
  }

  lemma RefsRemove(nodes: map<nat, Node>, i: nat, j: nat)
    requires i in nodes && !Linked(nodes[i])
    ensures Refs(nodes - {i}, j) == Refs(nodes, j)
  {
    var A, B := Refs(nodes - {i}, j), Refs(nodes, j);
    forall x | x in A ensures x in B {}
    forall x | x in B ensures x in A {}
  }

  lemma ReapShaped(t: Tree, i: nat)
    requires Shaped(t) && i in t.nodes && t.nodes[i].nlink == 0
    requires forall d, k | d in t.nodes && Linked(t.nodes[d]) && 0 <= k < |t.nodes[d].ents|
                           && t.nodes[d].ents[k].name != "." ::
               t.nodes[d].ents[k].inum != i
    ensures Shaped(t.(nodes := t.nodes - {i}))
  {
    var r := t.(nodes := t.nodes - {i});
    forall d | d in r.nodes && r.nodes[d].kind == DIR ensures DirOk(r, d) {
      assert DirOk(t, d);
    }
    forall d, k | d in r.nodes && Linked(r.nodes[d]) && 2 <= k < |r.nodes[d].ents| ensures EntryOk(r, d, k) {
      assert EntryOk(t, d, k) && DirOk(t, d);
      assert t.nodes[d].ents[k].inum != 0 ==> t.nodes[d].ents[k].name != ".";
    }
  }

  // ---------------------------------------------------------------- every operation keeps the counts exact

  /** A name dirlookup does not find is neither "." nor "..", and is new. */
  lemma NewName(t: Tree, dp: nat, name: string)
    requires Shaped(t) && CanAdd(t, dp, name)
    ensures Clip(name) != "." && Clip(name) != ".." && DirShape(t.nodes[dp], dp)
    ensures 2 <= FirstFree(t.nodes[dp].ents, 0)
    ensures forall k | 0 <= k < |t.nodes[dp].ents| && t.nodes[dp].ents[k].inum != 0 ::
              t.nodes[dp].ents[k].name != Clip(name)
  {
    assert DirOk(t, dp);
    var ents := t.nodes[dp].ents;
    assert ents[0].inum == dp != 0;
    assert forall k | 0 <= k < |ents| && ents[k].inum != 0 :: Clip(ents[k].name) != Clip(name);
    assert Clip(".") == "." && Clip("..") == "..";
  }

  lemma WithEntryShape(n: Node, d: nat, name: string, i: nat)
    requires DirShape(n, d) && i != 0 && Clip(name) != "." && Clip(name) != ".." && 2 <= FirstFree(n.ents, 0)
    requires forall k | 0 <= k < |n.ents| && n.ents[k].inum != 0 :: n.ents[k].name != Clip(name)
    ensures DirShape(WithEntry(n, name, i), d)
  {
    ClipTwice(name);
  }

  /** From t to r, linked directory dp gets entry k for ip, a file that exists or a new inode. */
  ghost predicate Added(t: Tree, r: Tree, dp: nat, k: nat, ip: nat) {
    && dp in t.nodes && Linked(t.nodes[dp]) && ip != 0 && ip != dp && ip != ROOTINO
    && 2 <= k <= |t.nodes[dp].ents| && (k < |t.nodes[dp].ents| ==> t.nodes[dp].ents[k].inum == 0)
    && r.nodes.Keys == t.nodes.Keys + {ip}
    && (forall j | j in t.nodes && j != dp :: r.nodes[j] == t.nodes[j])
    && Linked(r.nodes[dp]) && DirShape(r.nodes[dp], dp)
    && k < |r.nodes[dp].ents| && r.nodes[dp].ents == PutEnt(t.nodes[dp].ents, k, Dirent(ip, r.nodes[dp].ents[k].name))
    && (if ip in t.nodes then t.nodes[ip].kind != DIR && r.slot == t.slot
        else r.nodes[ip] == NewNode(dp, r.nodes[ip].kind, ip)
             && r.slot == if r.nodes[ip].kind == DIR then t.slot[ip := k] else t.slot)
  }

  lemma AddedDirOk(t: Tree, r: Tree, dp: nat, k: nat, ip: nat, d: nat)
    requires Shaped(t) && Added(t, r, dp, k, ip) && d in r.nodes && r.nodes[d].kind == DIR
    ensures DirOk(r, d)
  {
    if d == ip {
      assert Clip(".") == "." && Clip("..") == "..";
    } else {
      assert DirOk(t, d);
    }
  }

  lemma AddedEntryOk(t: Tree, r: Tree, dp: nat, k: nat, ip: nat, d: nat, j: nat)
    requires Shaped(t) && Added(t, r, dp, k, ip) && d in r.nodes && Linked(r.nodes[d]) && 2 <= j < |r.nodes[d].ents|
    ensures EntryOk(r, d, j)
  {
    if d == dp && j == k {
      if r.nodes[ip].kind == DIR { AddedDirOk(t, r, dp, k, ip, ip); }
    } else {
      assert EntryOk(t, d, j);
      var e := t.nodes[d].ents[j].inum;
      if e != 0 && t.nodes[e].kind == DIR { AddedDirOk(t, r, dp, k, ip, e); }
    }
  }

  lemma AddedShaped(t: Tree, r: Tree, dp: nat, k: nat, ip: nat)
    requires Shaped(t) && Added(t, r, dp, k, ip)
    ensures Shaped(r)
  {
    forall d | d in r.nodes && r.nodes[d].kind == DIR ensures DirOk(r, d) { AddedDirOk(t, r, dp, k, ip, d); }
    forall d, j | d in r.nodes && Linked(r.nodes[d]) && 2 <= j < |r.nodes[d].ents| ensures EntryOk(r, d, j) {
      AddedEntryOk(t, r, dp, k, ip, d, j);
    }
  }

  lemma CreateAdds(t: Tree, dp: nat, name: string, kind: Kind, ip: nat)
    requires Shaped(t) && CanAdd(t, dp, name) && Linked(t.nodes[dp]) && ip !in t.nodes && ip != 0
    ensures Added(t, Create(t, dp, name, kind, ip), dp, FirstFree(t.nodes[dp].ents, 0), ip) && Clip(name) != "."
  {
    NewName(t, dp, name);
    WithEntryShape(Adjust(t.nodes[dp], if kind == DIR then 1 else 0), dp, name, ip);
    hide Shaped;
  }

  /** create in a linked directory. */
  lemma CreateKeeps(t: Tree, dp: nat, name: string, kind: Kind, ip: nat)
    requires Inv(t) && CanAdd(t, dp, name) && Linked(t.nodes[dp]) && ip !in t.nodes && ip != 0
    ensures Inv(Create(t, dp, name, kind, ip))
  {
    hide Refs, Shaped;
    var r := Create(t, dp, name, kind, ip);
    CreateAdds(t, dp, name, kind, ip);
    AddedShaped(t, r, dp, FirstFree(t.nodes[dp].ents, 0), ip);
    forall j | j in r.nodes ensures ExactAt(r, j) {
      CreateExact(t, dp, name, kind, ip, j);
    }
  }

  lemma CreateExact(t: Tree, dp: nat, name: string, kind: Kind, ip: nat, j: nat)
    requires Inv(t) && CanAdd(t, dp, name) && Linked(t.nodes[dp]) && ip !in t.nodes && ip != 0
    requires Clip(name) != "." && j in Create(t, dp, name, kind, ip).nodes
    ensures ExactAt(Create(t, dp, name, kind, ip), j)
  {
    hide Refs;
    var n := WithEntry(Adjust(t.nodes[dp], if kind == DIR then 1 else 0), name, ip);
    var k := FirstFree(t.nodes[dp].ents, 0);
    RefsAdd(t.nodes, dp, n, k, Dirent(ip, Clip(name)), j);
    if kind == DIR {
      RefsNewDir(t.nodes[dp := n], ip, dp, j);
    } else {
      RefsSame(t.nodes[dp := n], ip, NewNode(dp, kind, ip), j);
    }
    if j == ip { NoRefsToFree(t, ip); } else { assert ExactAt(t, j); }
    hide Shaped;
  }

  /** sys_link's first step. */
  lemma LinkBeginKeeps(t: Tree, ip: nat)
    requires Inv(t) && ip in t.nodes && t.nodes[ip].kind != DIR
    ensures Inv(LinkBegin(t, ip))
  {
    hide Refs;
    var r := LinkBegin(t, ip);
    FileChanged(t, r, ip);
    forall j | j in r.nodes ensures ExactAt(r, j) {
      assert ExactAt(t, j);
      RefsSame(t.nodes, ip, r.nodes[ip], j);
    }
  }

  /** Nothing about directories changes with a file's link count. */
  lemma FileChanged(t: Tree, r: Tree, ip: nat)
    requires Shaped(t) && ip in t.nodes && t.nodes[ip].kind != DIR && ip in r.nodes && r.nodes[ip].kind != DIR
    requires r.nodes == t.nodes[ip := r.nodes[ip]] && r.slot == t.slot
    ensures Shaped(r)
  {
    forall d | d in r.nodes && r.nodes[d].kind == DIR ensures DirOk(r, d) { assert DirOk(t, d); }
    forall d, k | d in r.nodes && Linked(r.nodes[d]) && 2 <= k < |r.nodes[d].ents|
      ensures EntryOk(r, d, k) { assert EntryOk(t, d, k); }
  }

  lemma LinkAdds(t: Tree, dp: nat, name: string, ip: nat)
    requires Shaped(t) && CanAdd(t, dp, name) && Linked(t.nodes[dp]) && ip in t.nodes && t.nodes[ip].kind != DIR
    ensures Added(t, LinkEnd(t, dp, name, ip), dp, FirstFree(t.nodes[dp].ents, 0), ip) && Clip(name) != "."
  {
    NewName(t, dp, name);
    WithEntryShape(t.nodes[dp], dp, name, ip);
    assert ip != 0 && ip != ROOTINO;
    hide Shaped;
    assert LinkEnd(t, dp, name, ip).nodes.Keys == t.nodes.Keys + {ip};
  }

  lemma LinkEndExact(t: Tree, dp: nat, name: string, ip: nat, j: nat)
    requires Exact(t) && 0 !in t.nodes && CanAdd(t, dp, name) && Linked(t.nodes[dp]) && ip in t.pending
             && ip in t.nodes && ip != dp
    requires Clip(name) != "." && j in t.nodes
    ensures ExactAt(LinkEnd(t, dp, name, ip), j)
  {
    hide Refs;
    assert ExactAt(t, j);
    RefsAdd(t.nodes, dp, WithEntry(t.nodes[dp], name, ip), FirstFree(t.nodes[dp].ents, 0), Dirent(ip, Clip(name)), j);
  }

  lemma LinkEndExacts(t: Tree, dp: nat, name: string, ip: nat)
    requires Exact(t) && Shaped(t) && CanAdd(t, dp, name) && Linked(t.nodes[dp]) && ip in t.pending && ip in t.nodes
             && ip != dp && Clip(name) != "."
    ensures Exact(LinkEnd(t, dp, name, ip))
  {
    forall j | j in t.nodes ensures ExactAt(LinkEnd(t, dp, name, ip), j) {
      LinkEndExact(t, dp, name, ip, j);
    }
  }

  /** sys_link's second step, into a linked directory. */
  lemma LinkEndKeeps(t: Tree, dp: nat, name: string, ip: nat)
    requires Inv(t) && CanAdd(t, dp, name) && Linked(t.nodes[dp]) && ip in t.pending
    ensures Inv(LinkEnd(t, dp, name, ip))
  {
    hide Refs, Shaped, Exact;
    var r := LinkEnd(t, dp, name, ip);
    LinkAdds(t, dp, name, ip);
    assert ip != dp;
    AddedShaped(t, r, dp, FirstFree(t.nodes[dp].ents, 0), ip);
    hide Added, FirstFree, PutEnt;
    LinkEndExacts(t, dp, name, ip);
  }

  lemma LinkAbortKeeps(t: Tree, ip: nat)
    requires Inv(t) && ip in t.pending
    ensures Inv(LinkAbort(t, ip))
  {
    hide Refs;
    var r := t.(nodes := t.nodes[ip := Adjust(t.nodes[ip], -1)], pending := t.pending - multiset{ip});
    FileChanged(t, r, ip);
    forall j | j in r.nodes ensures ExactAt(r, j) {
      assert ExactAt(t, j);
      RefsSame(t.nodes, ip, r.nodes[ip], j);
    }
    hide Shaped;
    ReapKeeps(r, ip);
  }

  lemma GetKeeps(t: Tree, i: nat)
    requires Inv(t) && i in t.nodes
    ensures Inv(Get(t, i))
  {
    hide Refs;
    var r := Get(t, i);
    SameNodes(t, r);
  }

  lemma SameNodes(t: Tree, r: Tree)
    requires Shaped(t) && Exact(t) && r.nodes == t.nodes && r.slot == t.slot && r.pending == t.pending
    ensures Shaped(r) && Exact(r)
  {
    hide Refs;
    forall d | d in r.nodes && r.nodes[d].kind == DIR ensures DirOk(r, d) { assert DirOk(t, d); }
    forall d, k | d in r.nodes && Linked(r.nodes[d]) && 2 <= k < |r.nodes[d].ents|
      ensures EntryOk(r, d, k) { assert EntryOk(t, d, k); }
    forall j | j in r.nodes ensures ExactAt(r, j) { assert ExactAt(t, j); }
  }

  lemma PutKeeps(t: Tree, i: nat)
    requires Inv(t) && i in t.held
    ensures Inv(Put(t, i))
  {
    hide Refs;
    var r := t.(held := t.held - multiset{i});
    SameNodes(t, r);
    hide Shaped;
    ReapKeeps(r, i);
  }

  // ---------------------------------------------------------------- unlink

  /** sys_unlink gets past its checks: the name is not "." or "..", it is there, and if it names a directory
      that directory is empty. */
  predicate CanCut(t: Tree, dp: nat, name: string) {
    && dp in t.nodes && t.nodes[dp].kind == DIR
    && Clip(name) != "." && Clip(name) != ".."
    && var k := Find(t.nodes[dp].ents, name, 0);
    && k < |t.nodes[dp].ents|
    && t.nodes[dp].ents[k].inum in t.nodes
    && (t.nodes[t.nodes[dp].ents[k].inum].kind == DIR ==> EmptyFrom(t.nodes[t.nodes[dp].ents[k].inum].ents, 2))
  }

  /** The entry unlink removes. */
  lemma CutAt(t: Tree, dp: nat, name: string) returns (k: nat, ip: nat)
    requires Inv(t) && CanCut(t, dp, name) && Linked(t.nodes[dp])
    ensures k == Find(t.nodes[dp].ents, name, 0) && 2 <= k < |t.nodes[dp].ents|
    ensures ip == t.nodes[dp].ents[k].inum && ip != 0 && ip != dp && ip != ROOTINO && t.nodes[dp].ents[k].name != "."
    ensures t.nodes[ip].kind == DIR ==>
              Linked(t.nodes[ip]) && DirShape(t.nodes[ip], ip) && t.nodes[ip].ents[1].inum == dp && ip in t.slot
              && t.slot[ip] == k
  {
    k := Find(t.nodes[dp].ents, name, 0);
    ip := t.nodes[dp].ents[k].inum;
    assert DirOk(t, dp);
    assert EntryOk(t, dp, k);
  }

  /** An empty directory has exactly one link: unlink brings it to zero, never below. */
  lemma EmptyDirHasOneLink(t: Tree, ip: nat)
    requires Inv(t) && ip in t.nodes && Linked(t.nodes[ip]) && ip != ROOTINO && EmptyFrom(t.nodes[ip].ents, 2)
    ensures t.nodes[ip].nlink == 1
  {
    assert DirOk(t, ip);
    var p, k := t.nodes[ip].ents[1].inum, t.slot[ip];
    forall x | x in Refs(t.nodes, ip) ensures x == (p, k) {
      var (d, j) := x;
      assert DirOk(t, d);
      if j >= 2 { assert EntryOk(t, d, j); }
    }
    assert EntryOk(t, p, k) && DirOk(t, p);
    assert Names(t.nodes[p], k, ip);
    assert (p, k) in Refs(t.nodes, ip);
    assert Refs(t.nodes, ip) == {(p, k)};
    assert ExactAt(t, ip);
  }

  /** The parent of a listed directory keeps a link of its own. */
  lemma ParentHasTwoLinks(t: Tree, dp: nat, ip: nat)
    requires Inv(t) && dp in t.nodes && Linked(t.nodes[dp]) && ip in t.nodes && Linked(t.nodes[ip]) && ip != dp
             && ip != ROOTINO
    requires t.nodes[ip].ents != [] && DirOk(t, ip) && t.nodes[ip].ents[1].inum == dp
    ensures t.nodes[dp].nlink >= 2
  {
    assert DirOk(t, dp);
    assert Names(t.nodes[ip], 1, dp);
    var own := if dp == ROOTINO then (ROOTINO, 1) else (t.nodes[dp].ents[1].inum, t.slot[dp]);
    if dp != ROOTINO { assert EntryOk(t, own.0, own.1) && DirOk(t, own.0); }
    assert Names(t.nodes[own.0], own.1, dp);
    assert {(ip, 1), own} <= Refs(t.nodes, dp);
    assert |{(ip, 1), own}| == 2;
    assert |Refs(t.nodes, dp)| == |Refs(t.nodes, dp) - {(ip, 1), own}| + 2;
    assert ExactAt(t, dp);
  }

  function Unlink(t: Tree, dp: nat, name: string): (r: Tree)
    requires CanCut(t, dp, name)
  {
    var k := Find(t.nodes[dp].ents, name, 0);
    if t.nodes[dp].ents[k].inum == dp then t else Reap(Cut(t, dp, k), t.nodes[dp].ents[k].inum)
  }

  /** From t to r, linked directory dp loses entry k, which names ip; a directory ip loses its only link. */
  ghost predicate Removed(t: Tree, r: Tree, dp: nat, k: nat, ip: nat) {
    && dp in t.nodes && Linked(t.nodes[dp]) && 2 <= k < |t.nodes[dp].ents| && t.nodes[dp].ents[k].inum == ip
    && ip in t.nodes && ip != 0 && ip != dp && ip != ROOTINO
    && r.nodes.Keys == t.nodes.Keys
    && (forall j | j in t.nodes && j != dp && j != ip :: r.nodes[j] == t.nodes[j])
    && Linked(r.nodes[dp]) && DirShape(r.nodes[dp], dp)
    && r.nodes[dp].ents == PutEnt(t.nodes[dp].ents, k, Dirent(0, ""))
    && r.nodes[ip] == Adjust(t.nodes[ip], -1)
    && (if t.nodes[ip].kind == DIR
        then t.nodes[ip].nlink == 1 && DirShape(t.nodes[ip], ip) && t.nodes[ip].ents[1].inum == dp
             && EmptyFrom(t.nodes[ip].ents, 2)
             && ip in t.slot && t.slot[ip] == k && r.slot == t.slot - {ip}
        else r.slot == t.slot)
  }

  lemma RemovedDirOk(t: Tree, r: Tree, dp: nat, k: nat, ip: nat, d: nat)
    requires Shaped(t) && Removed(t, r, dp, k, ip) && d in r.nodes && r.nodes[d].kind == DIR
    ensures DirOk(r, d)
  {
    assert DirOk(t, d);
    if d != ip && d != ROOTINO && Linked(r.nodes[d]) {
      var p := t.nodes[d].ents[1].inum;
      assert ListedAt(t.nodes, p, t.slot[d], d);
    }
  }

  lemma RemovedEntryOk(t: Tree, r: Tree, dp: nat, k: nat, ip: nat, d: nat, j: nat)
    requires Shaped(t) && Removed(t, r, dp, k, ip) && d in r.nodes && Linked(r.nodes[d]) && 2 <= j < |r.nodes[d].ents|
    ensures EntryOk(r, d, j)
  {
    assert EntryOk(t, d, j);
    var e := t.nodes[d].ents[j].inum;
    if (d, j) != (dp, k) && e != 0 && r.nodes[e].kind == DIR {
      RemovedDirOk(t, r, dp, k, ip, e);
    }
  }

  lemma RemovedShaped(t: Tree, r: Tree, dp: nat, k: nat, ip: nat)
    requires Shaped(t) && Removed(t, r, dp, k, ip)
    ensures Shaped(r)
  {
    forall d | d in r.nodes && r.nodes[d].kind == DIR ensures DirOk(r, d) { RemovedDirOk(t, r, dp, k, ip, d); }
    forall d, j | d in r.nodes && Linked(r.nodes[d]) && 2 <= j < |r.nodes[d].ents| ensures EntryOk(r, d, j) {
      RemovedEntryOk(t, r, dp, k, ip, d, j);
    }
  }

  lemma RemovedExact(t: Tree, r: Tree, dp: nat, k: nat, ip: nat, j: nat)
    requires Shaped(t) && Exact(t) && Removed(t, r, dp, k, ip) && r.pending == t.pending && j in r.nodes
             && t.nodes[dp].ents[k].name != "."
    requires r.nodes[dp].nlink == t.nodes[dp].nlink - (if t.nodes[ip].kind == DIR then 1 else 0)
    ensures ExactAt(r, j)
  {
    hide Refs;
    assert ExactAt(t, j) && j != 0;
    RefsCut(t.nodes, dp, r.nodes[dp], k, j);
    var mid := t.nodes[dp := r.nodes[dp]];
    if t.nodes[ip].kind == DIR {
      RefsGone(mid, ip, r.nodes[ip], j);
    } else {
      RefsSame(mid, ip, r.nodes[ip], j);
    }
    assert mid[ip := r.nodes[ip]] == r.nodes;
  }

  lemma CutParent(t: Tree, dp: nat, k: nat, ip: nat)
    requires Inv(t) && dp in t.nodes && Linked(t.nodes[dp]) && ip in t.nodes && ip != dp && ip != ROOTINO
             && 2 <= k < |t.nodes[dp].ents|
    requires t.nodes[ip].kind == DIR ==>
               Linked(t.nodes[ip]) && t.nodes[ip].ents != [] && DirShape(t.nodes[ip], ip)
               && t.nodes[ip].ents[1].inum == dp && EmptyFrom(t.nodes[ip].ents, 2)
    ensures t.nodes[ip].kind == DIR ==> t.nodes[ip].nlink == 1 && t.nodes[dp].nlink >= 2
    ensures DirShape(t.nodes[dp], dp) && DirShape(t.nodes[dp].(ents := PutEnt(t.nodes[dp].ents, k, Dirent(0, ""))), dp)
  {
    hide Refs;
    assert DirOk(t, dp);
    if t.nodes[ip].kind == DIR {
      EmptyDirHasOneLink(t, ip);
      assert DirOk(t, ip);
      ParentHasTwoLinks(t, dp, ip);
    }
  }

  lemma CutRemoves(t: Tree, dp: nat, name: string, k: nat, ip: nat)
    requires Inv(t) && CanCut(t, dp, name) && Linked(t.nodes[dp])
    requires k == Find(t.nodes[dp].ents, name, 0) && 2 <= k < |t.nodes[dp].ents|
    requires ip == t.nodes[dp].ents[k].inum && ip != 0 && ip != dp && ip != ROOTINO
    requires t.nodes[ip].kind == DIR ==>
               Linked(t.nodes[ip]) && DirShape(t.nodes[ip], ip) && t.nodes[ip].ents[1].inum == dp && ip in t.slot
               && t.slot[ip] == k
    ensures Removed(t, Cut(t, dp, k), dp, k, ip)
  {
    CutParent(t, dp, k, ip);
    hide Inv, Refs;
    assert Cut(t, dp, k).nodes.Keys == t.nodes.Keys;
  }

  /** unlink in a linked directory: the panic "nlink < 1" does not happen either. */
  lemma UnlinkKeeps(t: Tree, dp: nat, name: string)
    requires Inv(t) && CanCut(t, dp, name) && Linked(t.nodes[dp])
    ensures t.nodes[t.nodes[dp].ents[Find(t.nodes[dp].ents, name, 0)].inum].nlink >= 1
    ensures Inv(Unlink(t, dp, name))
  {
    hide Refs;
    var k, ip := CutAt(t, dp, name);
    CutRemoves(t, dp, name, k, ip);
    var r := Cut(t, dp, k);
    RemovedShaped(t, r, dp, k, ip);
    forall j | j in r.nodes ensures ExactAt(r, j) {
      RemovedExact(t, r, dp, k, ip, j);
    }
    assert ExactAt(r, ip);
    hide Shaped;
    ReapKeeps(r, ip);
  }

  // ---------------------------------------------------------------- whole runs

  datatype Op =
    | CreateOp(dp: nat, name: string, kind: Kind, ip: nat)
    | LinkBeginOp(ip: nat)
    | LinkEndOp(dp: nat, name: string, ip: nat)
    | LinkAbortOp(ip: nat)
    | UnlinkOp(dp: nat, name: string)
    | GetOp(i: nat)
    | PutOp(i: nat)

  /** The operation gets past its checks, in a parent directory that is itself linked. */
  predicate Enabled(t: Tree, op: Op) {
    match op
    case CreateOp(dp, name, _, ip) => CanAdd(t, dp, name) && Linked(t.nodes[dp]) && ip !in t.nodes && ip != 0
    case LinkBeginOp(ip) => ip in t.nodes && t.nodes[ip].kind != DIR
    case LinkEndOp(dp, name, ip) => CanAdd(t, dp, name) && Linked(t.nodes[dp]) && ip in t.pending
    case LinkAbortOp(ip) => ip in t.nodes && ip in t.pending
    case UnlinkOp(dp, name) => CanCut(t, dp, name) && Linked(t.nodes[dp])
    case GetOp(i) => i in t.nodes
    case PutOp(i) => i in t.held
  }

  function Do(t: Tree, op: Op): (r: Tree)
    requires Enabled(t, op)
  {
    match op
    case CreateOp(dp, name, kind, ip) => Create(t, dp, name, kind, ip)
    case LinkBeginOp(ip) => LinkBegin(t, ip)
    case LinkEndOp(dp, name, ip) => LinkEnd(t, dp, name, ip)
    case LinkAbortOp(ip) => LinkAbort(t, ip)
    case UnlinkOp(dp, name) => Unlink(t, dp, name)
    case GetOp(i) => Get(t, i)
    case PutOp(i) => Put(t, i)
  }

  predicate Possible(t: Tree, ops: seq<Op>)
    decreases |ops|
  {
    ops == [] || (Enabled(t, ops[0]) && Possible(Do(t, ops[0]), ops[1..]))
  }

  function Exec(t: Tree, ops: seq<Op>): (r: Tree)
    requires Possible(t, ops)
    decreases |ops|
  {
    if ops == [] then t else Exec(Do(t, ops[0]), ops[1..])
  }

  /** mkfs's root directory; the files mkfs copies in are creations followed by the drop of a reference. */
  function Start(): (t: Tree) {
    Tree(map[ROOTINO := Node(DIR, 1, [Dirent(ROOTINO, "."), Dirent(ROOTINO, "..")])], multiset{}, multiset{}, map[])
  }

  lemma StartInv()
    ensures Inv(Start())
  {
    var t := Start();
    assert Clip(".") == "." && Clip("..") == "..";
    assert DirOk(t, ROOTINO);
    assert Names(t.nodes[ROOTINO], 1, ROOTINO);
    assert (ROOTINO, 1) in Refs(t.nodes, ROOTINO);
    forall x | x in Refs(t.nodes, ROOTINO) ensures x == (ROOTINO, 1) {}
    assert Refs(t.nodes, ROOTINO) == {(ROOTINO, 1)};
    assert ExactAt(t, ROOTINO);
  }

  lemma InvStep(t: Tree, op: Op)
    requires Inv(t) && Enabled(t, op)
    ensures Inv(Do(t, op))
  {
    hide Inv, Create, LinkBegin, LinkEnd, LinkAbort, Unlink, Get, Put;
    match op
    case CreateOp(dp, name, kind, ip) => CreateKeeps(t, dp, name, kind, ip);
    case LinkBeginOp(ip) => LinkBeginKeeps(t, ip);
    case LinkEndOp(dp, name, ip) => LinkEndKeeps(t, dp, name, ip);
    case LinkAbortOp(ip) => LinkAbortKeeps(t, ip);
    case UnlinkOp(dp, name) => UnlinkKeeps(t, dp, name);
    case GetOp(i) => GetKeeps(t, i);
    case PutOp(i) => PutKeeps(t, i);
  }

  lemma {:induction false} ExecKeeps(t: Tree, ops: seq<Op>)
    requires Inv(t) && Possible(t, ops)
    ensures Inv(Exec(t, ops))
    decreases |ops|
  {
    hide Inv;
    if ops != [] {
      InvStep(t, ops[0]);
      ExecKeeps(Do(t, ops[0]), ops[1..]);
    }
  }

  /** Link counts over every run: nlink is the number of entries other than "." that name the inode in
      linked directories, plus the links under way; used names of a directory are distinct up to DIRSIZ;
      every entry of a linked directory names an inode that iput has not freed; and an inode that is
      neither named nor referenced has been freed. */
  lemma LinkCountsExact(ops: seq<Op>)
    requires Possible(Start(), ops)
    ensures var t := Exec(Start(), ops);
            && (forall i | i in t.nodes :: t.nodes[i].nlink == |Refs(t.nodes, i)| + t.pending[i])
            && (forall i | i in t.nodes && i !in t.held && i !in t.pending :: Refs(t.nodes, i) != {})
            && (forall d, j, k | d in t.nodes && t.nodes[d].kind == DIR && 0 <= j < k < |t.nodes[d].ents|
                                 && t.nodes[d].ents[j].inum != 0 && t.nodes[d].ents[k].inum != 0 ::
                  Clip(t.nodes[d].ents[j].name) != Clip(t.nodes[d].ents[k].name))
            && (forall d, k | d in t.nodes && Linked(t.nodes[d]) && 0 <= k < |t.nodes[d].ents|
                              && t.nodes[d].ents[k].inum != 0 ::
                  t.nodes[d].ents[k].inum in t.nodes)
  {
    StartInv();
    ExecKeeps(Start(), ops);
    CountsExact(Exec(Start(), ops));
  }

  lemma CountsExact(t: Tree)
    requires Inv(t)
    ensures forall i | i in t.nodes :: t.nodes[i].nlink == |Refs(t.nodes, i)| + t.pending[i]
    ensures forall i | i in t.nodes && i !in t.held && i !in t.pending :: Refs(t.nodes, i) != {}
    ensures forall d, j, k | d in t.nodes && t.nodes[d].kind == DIR && 0 <= j < k < |t.nodes[d].ents|
                             && t.nodes[d].ents[j].inum != 0 && t.nodes[d].ents[k].inum != 0 ::
              Clip(t.nodes[d].ents[j].name) != Clip(t.nodes[d].ents[k].name)
    ensures forall d, k | d in t.nodes && Linked(t.nodes[d]) && 0 <= k < |t.nodes[d].ents|
                          && t.nodes[d].ents[k].inum != 0 ::
              t.nodes[d].ents[k].inum in t.nodes
  {
    hide Refs;
    forall i | i in t.nodes ensures t.nodes[i].nlink == |Refs(t.nodes, i)| + t.pending[i] { assert ExactAt(t, i); }
    hide Exact;
    forall d | d in t.nodes && t.nodes[d].kind == DIR ensures DirShape(t.nodes[d], d) { assert DirOk(t, d); }
    forall d, k | d in t.nodes && Linked(t.nodes[d]) && 0 <= k < |t.nodes[d].ents| && t.nodes[d].ents[k].inum != 0
      ensures t.nodes[d].ents[k].inum in t.nodes
    {
      NamedExists(t, d, k);
    }
    hide Shaped, DirOk;
  }

  // ---------------------------------------------------------------- why the parent must be linked

  /** What LinkCountsExact says of the entries of linked directories: they name no freed inode. */
  ghost predicate NamesAllocated(t: Tree) {
    forall d, k | d in t.nodes && Linked(t.nodes[d]) && 0 <= k < |t.nodes[d].ents| && t.nodes[d].ents[k].inum != 0 ::
      t.nodes[d].ents[k].inum in t.nodes
  }

  /** Link counts are exact, and no entry of a linked directory names a freed inode. */
  ghost predicate Healthy(t: Tree) { Exact(t) && NamesAllocated(t) }

  lemma InvHealthy(t: Tree)
    requires Inv(t)
    ensures Healthy(t)
  {
    hide Refs;
    CountsExact(t);
  }

  /** create keeps the tree healthy exactly when the parent directory is linked. Neither create nor sys_link
      tests this, so a process whose current directory has been removed can break it: by a file that nothing
      counts, or by a directory that makes its removed parent count again. */
  lemma CreateExactIff(t: Tree, dp: nat, name: string, kind: Kind, ip: nat)
    requires Inv(t) && CanAdd(t, dp, name) && ip !in t.nodes && ip != 0
    ensures Healthy(Create(t, dp, name, kind, ip)) <==> Linked(t.nodes[dp])
    ensures Inv(Create(t, dp, name, kind, ip)) <==> Linked(t.nodes[dp])
  {
    hide Refs, Inv, Healthy;
    var r := Create(t, dp, name, kind, ip);
    if Linked(t.nodes[dp]) {
      CreateKeeps(t, dp, name, kind, ip);
      InvHealthy(r);
    } else {
      if kind == DIR { StrayDir(t, dp, name, ip); } else { StrayFile(t, dp, name, kind, ip); }
      Unhealthy(r);
    }
  }

  lemma Unhealthy(t: Tree)
    requires !Exact(t) || !NamesAllocated(t)
    ensures !Healthy(t) && !Inv(t)
  {
    if Inv(t) { InvHealthy(t); }
  }

  /** The same for the second step of sys_link. */
  lemma LinkExactIff(t: Tree, dp: nat, name: string, ip: nat)
    requires Inv(t) && CanAdd(t, dp, name) && ip in t.pending
    ensures Healthy(LinkEnd(t, dp, name, ip)) <==> Linked(t.nodes[dp])
    ensures Inv(LinkEnd(t, dp, name, ip)) <==> Linked(t.nodes[dp])
  {
    hide Refs, Inv, Healthy;
    var r := LinkEnd(t, dp, name, ip);
    if Linked(t.nodes[dp]) {
      LinkEndKeeps(t, dp, name, ip);
      InvHealthy(r);
    } else {
      StrayLink(t, dp, name, ip);
      Unhealthy(r);
    }
  }

  /** A directory made in a removed one gives it a link again, and with it the entry ".." of the removed one
      counts again: for an inode whose count has been lowered, or for one that has been freed since. */
  lemma StrayDir(t: Tree, dp: nat, name: string, ip: nat)
    requires Inv(t) && CanAdd(t, dp, name) && ip !in t.nodes && ip != 0 && !Linked(t.nodes[dp])
    ensures !Exact(Create(t, dp, name, DIR, ip)) || !NamesAllocated(Create(t, dp, name, DIR, ip))
  {
    var r := Create(t, dp, name, DIR, ip);
    RemovedShape(t, dp);
    var p, k := t.nodes[dp].ents[1].inum, FirstFree(t.nodes[dp].ents, 0);
    assert Linked(r.nodes[dp]) && Linked(r.nodes[ip]) && r.nodes[dp].ents[1] == t.nodes[dp].ents[1];
    assert (dp, 1) in Refs(r.nodes, p) by { assert Names(r.nodes[dp], 1, p); }
    if p == dp {
      assert (ip, 1) in Refs(r.nodes, dp) by { assert Names(r.nodes[ip], 1, dp); }
      AtLeastTwo(Refs(r.nodes, dp), (dp, 1), (ip, 1));
      assert !ExactAt(r, dp);
    } else if p == ip {
      NewName(t, dp, name);
      assert (dp, k) in Refs(r.nodes, ip) by { assert Names(r.nodes[dp], k, ip); }
      AtLeastTwo(Refs(r.nodes, ip), (dp, 1), (dp, k));
      assert !ExactAt(r, ip);
    } else if p in t.nodes {
      assert ExactAt(t, p);
      RefsKept(t.nodes, r.nodes, dp, p);
      StrictlyMore(Refs(t.nodes, p), Refs(r.nodes, p), (dp, 1));
      assert !ExactAt(r, p);
    } else {
      assert r.nodes[dp].ents[1].inum !in r.nodes;
    }
  }

  /** A removed directory has no link left, and begins with "." and "..". */
  lemma RemovedShape(t: Tree, dp: nat)
    requires Inv(t) && dp in t.nodes && t.nodes[dp].kind == DIR && !Linked(t.nodes[dp])
    ensures t.nodes[dp].nlink == 0 && DirShape(t.nodes[dp], dp) && dp !in t.pending
    ensures 2 <= FirstFree(t.nodes[dp].ents, 0)
  {
    hide Refs;
    assert ExactAt(t, dp) && DirOk(t, dp);
  }

  /** Entries of directories that stay linked and unchanged go on counting. */
  lemma RefsKept(nodes: map<nat, Node>, nodes': map<nat, Node>, dp: nat, j: nat)
    requires dp in nodes && !Linked(nodes[dp])
    requires forall d | d in nodes && d != dp :: d in nodes' && nodes'[d] == nodes[d]
    ensures Refs(nodes, j) <= Refs(nodes', j) && (dp, 1) !in Refs(nodes, j)
  {
  }

  lemma AtLeastTwo(s: set<(nat, nat)>, x: (nat, nat), y: (nat, nat))
    requires x in s && y in s && x != y
    ensures |s| >= 2
  {
    assert |s| == |s - {x}| + 1 && y in s - {x};
  }

  lemma StrictlyMore(s: set<(nat, nat)>, s': set<(nat, nat)>, x: (nat, nat))
    requires s <= s' && x in s' && x !in s
    ensures |s'| > |s|
  {
    assert s' == s + (s' - s) && x in s' - s;
  }

  /** A run that gets there: make directory "d", remove it while a process still has it as its current
      directory, make a file "f" and begin to link it. In the removed directory a file and a directory can still be
      created and the link still be finished, and each of them leaves an inexact count. */
  lemma RemovedDirectoryReached() returns (ops: seq<Op>)
    ensures Possible(Start(), ops)
    ensures var t := Exec(Start(), ops);
            && 2 in t.held && 2 in t.nodes && !Linked(t.nodes[2]) && 3 in t.pending && 4 !in t.nodes
            && CanAdd(t, 2, "x")
            && !Exact(Create(t, 2, "x", FILE, 4)) && !Exact(LinkEnd(t, 2, "x", 3)) && !Exact(Create(t, 2, "x", DIR, 4))
  {
    hide Refs, Inv, Exact, NamesAllocated, Create;
    ops := [CreateOp(1, "d", DIR, 2), UnlinkOp(1, "d"), CreateOp(1, "f", FILE, 3), LinkBeginOp(3)];
    var t := RemovedDirectory(ops);
    StartInv();
    ExecKeeps(Start(), ops);
    StrayFile(t, 2, "x", FILE, 4);
    StrayLink(t, 2, "x", 3);
    StrayDir(t, 2, "x", 4);
    ParentThere(t);
  }

  /** In that run the removed directory's parent is the root, which is allocated. */
  lemma ParentThere(t: Tree)
    requires Inv(t) && 2 in t.nodes && t.nodes[2].ents == [Dirent(2, "."), Dirent(1, "..")] && CanAdd(t, 2, "x")
    requires 4 !in t.nodes && !Linked(t.nodes[2])
    ensures NamesAllocated(Create(t, 2, "x", DIR, 4))
  {
    hide Refs;
    var r := Create(t, 2, "x", DIR, 4);
    forall d, k | d in r.nodes && Linked(r.nodes[d]) && 0 <= k < |r.nodes[d].ents| && r.nodes[d].ents[k].inum != 0
      ensures r.nodes[d].ents[k].inum in r.nodes
    {
      if d != 2 && d != 4 { NamedExists(t, d, k); }
    }
  }

  lemma RemovedDirectory(ops: seq<Op>) returns (t: Tree)
    requires ops == [CreateOp(1, "d", DIR, 2), UnlinkOp(1, "d"), CreateOp(1, "f", FILE, 3), LinkBeginOp(3)]
    ensures Possible(Start(), ops) && t == Exec(Start(), ops)
    ensures 2 in t.held && 2 in t.nodes && !Linked(t.nodes[2]) && 3 in t.pending && 4 !in t.nodes && CanAdd(t, 2, "x")
    ensures t.nodes[2].ents == [Dirent(2, "."), Dirent(1, "..")]
  {
    assert Clip(".") == "." && Clip("..") == ".." && Clip("d") == "d" && Clip("f") == "f" && Clip("x") == "x";
    var t0 := Start();
    var t1 := Do(t0, ops[0]);
    assert t1.nodes[1].ents == [Dirent(1, "."), Dirent(1, ".."), Dirent(2, "d")];
    var t2 := Do(t1, ops[1]);
    assert t2.nodes[1].ents == [Dirent(1, "."), Dirent(1, ".."), Dirent(0, "")];
    var t3 := Do(t2, ops[2]);
    t := Do(t3, ops[3]);
    assert t.nodes[2].ents == [Dirent(2, "."), Dirent(1, "..")];
    assert ops[1..] == [ops[1], ops[2], ops[3]] && ops[1..][1..] == [ops[2], ops[3]] && ops[1..][1..][1..] == [ops[3]];
    assert [ops[3]][1..] == [] && Possible(t, []) && Exec(t, []) == t;
    assert Possible(t3, [ops[3]]) && Exec(t3, [ops[3]]) == t;
    assert Possible(t2, [ops[2], ops[3]]) && Exec(t2, [ops[2], ops[3]]) == t;
    assert Possible(t1, ops[1..]) && Exec(t1, ops[1..]) == t;
  }

  /** Another run: "b" is removed while a process is in it, and then its parent "a" is removed and freed. A
      directory made there leaves every count exact, but the ".." of "b" counts again and names a freed inode. */
  lemma FreedParentReached() returns (ops: seq<Op>)
    ensures Possible(Start(), ops)
    ensures var t := Exec(Start(), ops);
            && 4 in t.held && 4 in t.nodes && !Linked(t.nodes[4]) && 2 !in t.nodes && CanAdd(t, 4, "x")
            && Exact(Create(t, 4, "x", DIR, 2)) && !NamesAllocated(Create(t, 4, "x", DIR, 2))
  {
    ops := [CreateOp(1, "a", DIR, 3), CreateOp(3, "b", DIR, 4), UnlinkOp(3, "b"), PutOp(3), UnlinkOp(1, "a")];
    var t := FreedParent(ops);
    var r := Create(t, 4, "x", DIR, 2);
    CountsThere(r);
    assert r.nodes[4].ents[1].inum !in r.nodes && Linked(r.nodes[4]);
  }

  lemma FreedParent(ops: seq<Op>) returns (t: Tree)
    requires ops == [CreateOp(1, "a", DIR, 3), CreateOp(3, "b", DIR, 4), UnlinkOp(3, "b"), PutOp(3), UnlinkOp(1, "a")]
    ensures Possible(Start(), ops) && t == Exec(Start(), ops)
    ensures t.nodes.Keys == {1, 4} && t.held == multiset{4} && t.pending == multiset{} && CanAdd(t, 4, "x")
    ensures t.nodes[1] == Node(DIR, 1, [Dirent(1, "."), Dirent(1, ".."), Dirent(0, "")])
    ensures t.nodes[4] == Node(DIR, 0, [Dirent(4, "."), Dirent(3, "..")]) && Clip("x") == "x"
    ensures Create(t, 4, "x", DIR, 2).nodes[4].ents == [Dirent(4, "."), Dirent(3, ".."), Dirent(2, "x")]
  {
    hide Clip, Find, Create, Unlink, Put, Enabled;
    var t2 := TwoDirs();
    var t1 := Do(Start(), ops[0]);
    var t3 := InnerRemoved(t2);
    var t4, t5 := OuterRemoved(t3);
    t := t5;
    var o3, o2, o1 := [ops[4]], [ops[3], ops[4]], [ops[2], ops[3], ops[4]];
    assert ops[1..] == [ops[1]] + o1 && ops[1..][1..] == o1 && o1[1..] == o2 && o2[1..] == o3 && o3[1..] == [];
    assert Possible(t, []) && Exec(t, []) == t;
    assert Possible(t4, o3) && Exec(t4, o3) == t;
    assert Possible(t3, o2) && Exec(t3, o2) == t;
    assert Possible(t2, o1) && Exec(t2, o1) == t;
    assert Possible(t1, ops[1..]) && Exec(t1, ops[1..]) == t;
    CreateThere(t);
  }

  lemma TwoDirs() returns (t: Tree)
    ensures Enabled(Start(), CreateOp(1, "a", DIR, 3))
    ensures var t1 := Do(Start(), CreateOp(1, "a", DIR, 3));
            Enabled(t1, CreateOp(3, "b", DIR, 4)) && t == Do(t1, CreateOp(3, "b", DIR, 4))
    ensures t.nodes.Keys == {1, 3, 4} && t.held == multiset{3, 4} && t.pending == multiset{}
    ensures t.nodes[1] == Node(DIR, 2, [Dirent(1, "."), Dirent(1, ".."), Dirent(3, "a")])
    ensures t.nodes[3] == Node(DIR, 2, [Dirent(3, "."), Dirent(1, ".."), Dirent(4, "b")])
    ensures t.nodes[4] == Node(DIR, 1, [Dirent(4, "."), Dirent(3, "..")])
  {
    assert Clip(".") == "." && Clip("..") == ".." && Clip("a") == "a" && Clip("b") == "b";
    var t1 := Do(Start(), CreateOp(1, "a", DIR, 3));
    assert t1.nodes[1].ents == [Dirent(1, "."), Dirent(1, ".."), Dirent(3, "a")];
    t := Do(t1, CreateOp(3, "b", DIR, 4));
  }

  lemma InnerRemoved(t: Tree) returns (r: Tree)
    requires t.nodes.Keys == {1, 3, 4} && t.held == multiset{3, 4} && t.pending == multiset{}
    requires t.nodes[1] == Node(DIR, 2, [Dirent(1, "."), Dirent(1, ".."), Dirent(3, "a")])
    requires t.nodes[3] == Node(DIR, 2, [Dirent(3, "."), Dirent(1, ".."), Dirent(4, "b")])
    requires t.nodes[4] == Node(DIR, 1, [Dirent(4, "."), Dirent(3, "..")])
    ensures Enabled(t, UnlinkOp(3, "b")) && r == Do(t, UnlinkOp(3, "b"))
    ensures r.nodes.Keys == {1, 3, 4} && r.held == multiset{3, 4} && r.pending == multiset{} && r.nodes[1] == t.nodes[1]
    ensures r.nodes[3] == Node(DIR, 1, [Dirent(3, "."), Dirent(1, ".."), Dirent(0, "")])
    ensures r.nodes[4] == Node(DIR, 0, [Dirent(4, "."), Dirent(3, "..")])
  {
    assert Clip(".") == "." && Clip("..") == ".." && Clip("b") == "b";
    r := Do(t, UnlinkOp(3, "b"));
  }

  lemma OuterRemoved(t: Tree) returns (r: Tree, r': Tree)
    requires t.nodes.Keys == {1, 3, 4} && t.held == multiset{3, 4} && t.pending == multiset{}
    requires t.nodes[1] == Node(DIR, 2, [Dirent(1, "."), Dirent(1, ".."), Dirent(3, "a")])
    requires t.nodes[3] == Node(DIR, 1, [Dirent(3, "."), Dirent(1, ".."), Dirent(0, "")])
    requires t.nodes[4] == Node(DIR, 0, [Dirent(4, "."), Dirent(3, "..")])
    ensures Enabled(t, PutOp(3)) && r == Do(t, PutOp(3))
    ensures Enabled(r, UnlinkOp(1, "a")) && r' == Do(r, UnlinkOp(1, "a"))
    ensures r'.nodes.Keys == {1, 4} && r'.held == multiset{4} && r'.pending == multiset{} && r'.nodes[4] == t.nodes[4]
    ensures r'.nodes[1] == Node(DIR, 1, [Dirent(1, "."), Dirent(1, ".."), Dirent(0, "")])
  {
    assert Clip(".") == "." && Clip("..") == ".." && Clip("a") == "a";
    r := Do(t, PutOp(3));
    assert r.nodes == t.nodes && r.held == multiset{4};
    r' := Do(r, UnlinkOp(1, "a"));
    assert r'.nodes.Keys == {1, 4};
  }

  lemma CreateThere(t: Tree)
    requires 4 in t.nodes && t.nodes[4] == Node(DIR, 0, [Dirent(4, "."), Dirent(3, "..")]) && 2 !in t.nodes
    ensures CanAdd(t, 4, "x") && Clip("x") == "x"
    ensures Create(t, 4, "x", DIR, 2).nodes[4].ents == [Dirent(4, "."), Dirent(3, ".."), Dirent(2, "x")]
  {
    assert Clip(".") == "." && Clip("..") == ".." && Clip("x") == "x";
  }

  lemma CountsThere(r: Tree)
    requires r.nodes.Keys == {1, 2, 4} && r.pending == multiset{}
    requires r.nodes[1] == Node(DIR, 1, [Dirent(1, "."), Dirent(1, ".."), Dirent(0, "")])
    requires r.nodes[2] == Node(DIR, 1, [Dirent(2, "."), Dirent(4, "..")])
    requires r.nodes[4] == Node(DIR, 1, [Dirent(4, "."), Dirent(3, ".."), Dirent(2, "x")])
    ensures Exact(r)
  {
    forall i | i in r.nodes ensures ExactAt(r, i) {
      var x := if i == 1 then (1, 1) else if i == 2 then (4, 2) else (2, 1);
      assert Names(r.nodes[x.0], x.1, i);
      assert Refs(r.nodes, i) == {x};
    }
  }

  /** A file created in an unlinked directory has a link that no entry of a linked directory accounts for. */
  lemma StrayFile(t: Tree, dp: nat, name: string, kind: Kind, ip: nat)
    requires Inv(t) && CanAdd(t, dp, name) && ip !in t.nodes && ip != 0 && !Linked(t.nodes[dp]) && kind != DIR
    ensures !Exact(Create(t, dp, name, kind, ip))
  {
    var r := Create(t, dp, name, kind, ip);
    assert ExactAt(t, dp);
    hide Refs;
    NoRefsToFree(t, ip);
    RefsSame(t.nodes, dp, r.nodes[dp], ip);
    RefsSame(t.nodes[dp := r.nodes[dp]], ip, r.nodes[ip], ip);
    assert !ExactAt(r, ip);
  }

  lemma StrayLink(t: Tree, dp: nat, name: string, ip: nat)
    requires Inv(t) && CanAdd(t, dp, name) && ip in t.pending && !Linked(t.nodes[dp])
    ensures !Exact(LinkEnd(t, dp, name, ip))
  {
    var r := LinkEnd(t, dp, name, ip);
    assert ExactAt(t, ip);
    hide Refs;
    RefsSame(t.nodes, dp, r.nodes[dp], ip);
    assert !ExactAt(r, ip);
  }

  // ---------------------------------------------------------------- the system calls

  /** What create has built when only the entry in the parent is missing. */
  lemma Placed(t: Tree, dp: nat, name: string, kind: Kind, ip: nat, r: Tree)
    requires CanAdd(t, dp, name) && ip !in t.nodes
    requires r.nodes == if kind == DIR
                        then t.nodes[ip := Node(DIR, 1, [])][dp := Adjust(t.nodes[dp], 1)][ip := NewNode(dp, DIR, ip)]
                        else t.nodes[ip := Node(kind, 1, [])]
    requires r.held == t.held && r.pending == t.pending
    requires r.slot == if kind == DIR then t.slot[ip := FirstFree(t.nodes[dp].ents, 0)] else t.slot
    ensures CanAdd(r, dp, name)
    ensures r.(nodes := r.nodes[dp := WithEntry(r.nodes[dp], name, ip)], held := r.held + multiset{ip}) ==
            Create(t, dp, name, kind, ip)
  {
    hide Find, FirstFree, WithEntry;
    assert r.nodes[dp] == Adjust(t.nodes[dp], if kind == DIR then 1 else 0);
    assert r.nodes[ip] == NewNode(dp, kind, ip);
    assert r.nodes[dp := WithEntry(r.nodes[dp], name, ip)] == Create(t, dp, name, kind, ip).nodes;
  }

  datatype CreateResult = Created(inum: nat) | Existing(inum: nat) | Refused | Panicked(noInodes: bool)

  class FileTree {
    const ninodes: nat
    var nodes: map<nat, Node>
    var held: multiset<nat>            // one element per reference a process holds
    ghost var pending: multiset<nat>
    ghost var slot: map<nat, nat>

    ghost function State(): (t: Tree)
      reads this
    {
      Tree(nodes, held, pending, slot)
    }

    ghost predicate Valid()
      reads this
    {
      Inv(State())
    }

    constructor (ninodes: nat)
      ensures Valid() && State() == Start() && this.ninodes == ninodes
    {
      this.ninodes := ninodes;
      nodes := map[ROOTINO := Node(DIR, 1, [Dirent(ROOTINO, "."), Dirent(ROOTINO, "..")])];
      held, pending, slot := multiset{}, multiset{}, map[];
      new;
      StartInv();
    }

    /** dirlookup: the slot of the entry, or the length of the directory. */
    method DirLookup(dp: nat, name: string) returns (k: nat)
      requires dp in nodes && nodes[dp].kind == DIR
      ensures k == Find(nodes[dp].ents, name, 0)
    {
      var ents := nodes[dp].ents;
      k := 0;
      while k < |ents|
        invariant 0 <= k <= |ents| && Find(ents, name, 0) == Find(ents, name, k)
      {
        if ents[k].inum != 0 && Clip(ents[k].name) == Clip(name) {
          return;
        }
        k := k + 1;
      }
    }

    /** dirlink; false is -1. */
    method DirLink(dp: nat, name: string, inum: nat) returns (ok: bool)
      requires dp in nodes && nodes[dp].kind == DIR
      modifies this`nodes
      ensures ok <==> CanAdd(old(State()), dp, name)
      ensures nodes == if ok then old(nodes)[dp := WithEntry(old(nodes[dp]), name, inum)] else old(nodes)
    {
      var ents := nodes[dp].ents;
      var k := DirLookup(dp, name);
      if k < |ents| {
        return false;
      }
      k := 0;
      while k < |ents| && ents[k].inum != 0
        invariant 0 <= k <= |ents| && FirstFree(ents, 0) == FirstFree(ents, k)
      {
        k := k + 1;
      }
      nodes := nodes[dp := nodes[dp].(ents := PutEnt(ents, k, Dirent(inum, Clip(name))))];
      ok := true;
    }

    /** isdirempty */
    method IsDirEmpty(dp: nat) returns (empty: bool)
      requires dp in nodes
      ensures empty <==> EmptyFrom(nodes[dp].ents, 2)
    {
      var ents := nodes[dp].ents;
      var k := 2;
      while k < |ents|
        invariant 2 <= k && forall j | 2 <= j < k && j < |ents| :: ents[j].inum == 0
      {
        if ents[k].inum != 0 {
          return false;
        }
        k := k + 1;
      }
      return true;
    }

    /** ialloc's scan: the lowest free inode number, 0 for its panic. */
    method FreeInum() returns (i: nat)
      ensures i == 0 <==> forall j | 1 <= j < ninodes :: j in nodes
      ensures i != 0 ==> i < ninodes && i !in nodes && forall j | 1 <= j < i :: j in nodes
    {
      var inum := 1;
      while inum < ninodes
        invariant 1 <= inum && forall j | 1 <= j < inum && j < ninodes :: j in nodes
      {
        if inum !in nodes {
          return inum;
        }
        inum := inum + 1;
      }
      return 0;
    }

    /** create in directory dp; the caller gets a reference to the inode. In a linked directory the invariant
        is kept; in a removed one exactly a creation breaks it, and the panic of ilock on a freed inode can be
        met through "..". */
    method CreateAt(dp: nat, name: string, kind: Kind) returns (r: CreateResult)
      requires Valid() && dp in nodes && nodes[dp].kind == DIR
      modifies this`nodes, this`held, this`slot
      ensures Valid() <==> Linked(old(nodes[dp])) || !r.Created?
      ensures CanAdd(old(State()), dp, name) <==> r.Created? || (r.Panicked? && r.noInodes)
      ensures r.Created? ==> r.inum !in old(nodes) && 0 < r.inum < ninodes
                             && State() == Create(old(State()), dp, name, kind, r.inum)
      ensures r.Panicked? ==> State() == old(State()) && (r.noInodes ==> forall j | 1 <= j < ninodes :: j in old(nodes))
      ensures !CanAdd(old(State()), dp, name) ==>
                var ip := old(nodes[dp].ents[Find(nodes[dp].ents, name, 0)].inum);
                && (Linked(old(nodes[dp])) ==> ip in old(nodes))
                && (r.Panicked? <==> ip !in old(nodes))
                && (ip in old(nodes) ==> r == if kind == FILE && old(nodes)[ip].kind == FILE then Existing(ip)
                                              else Refused)
                && State() == if r.Existing? then Get(old(State()), ip) else old(State())
    {
      hide Inv;
      ghost var t := State();
      var k := DirLookup(dp, name);
      if k < |nodes[dp].ents| {
        var ip := nodes[dp].ents[k].inum;
        if Linked(nodes[dp]) { Looked(t, dp, k); }
        if ip !in nodes {
          return Panicked(false);
        }
        if kind == FILE && nodes[ip].kind == FILE {
          GetKeeps(t, ip);
          held := held + multiset{ip};
          return Existing(ip);
        }
        return Refused;
      }
      var ip := FreeInum();
      if ip == 0 {
        return Panicked(true);
      }
      Place(dp, name, kind, ip);
      CreateExactIff(t, dp, name, kind, ip);
      return Created(ip);
    }

    /** create, from the ialloc on. */
    method Place(dp: nat, name: string, kind: Kind, ip: nat)
      requires CanAdd(State(), dp, name) && ip !in nodes && ip != 0
      modifies this`nodes, this`held, this`slot
      ensures State() == Create(old(State()), dp, name, kind, ip)
    {
      hide Inv, Find, FirstFree, WithEntry, NewNode, Create;
      ghost var t := State();
      nodes := nodes[ip := Node(kind, 1, [])];
      if kind == DIR {
        nodes := nodes[dp := Adjust(nodes[dp], 1)];
        slot := slot[ip := FirstFree(nodes[dp].ents, 0)];
        Dots(ip, dp);
      }
      Placed(t, dp, name, kind, ip, State());
      var ok := DirLink(dp, name, ip);
      held := held + multiset{ip};
    }

    /** The two entries every new directory starts with. */
    method Dots(ip: nat, dp: nat)
      requires ip in nodes && nodes[ip] == Node(DIR, 1, []) && ip != 0
      modifies this`nodes
      ensures nodes == old(nodes)[ip := NewNode(dp, DIR, ip)]
    {
      assert Clip(".") == "." && Clip("..") == "..";
      var ok := DirLink(ip, ".", ip);
      assert nodes[ip].ents == [Dirent(ip, ".")];
      ok := DirLink(ip, "..", dp);
      assert nodes[ip].ents == [Dirent(ip, "."), Dirent(dp, "..")];
    }

    lemma Looked(t: Tree, dp: nat, k: nat)
      requires Inv(t) && dp in t.nodes && Linked(t.nodes[dp]) && k < |t.nodes[dp].ents| && t.nodes[dp].ents[k].inum != 0
      ensures t.nodes[dp].ents[k].inum in t.nodes
    {
      NamedExists(t, dp, k);
    }

    /** sys_link up to iunlock(ip); false is -1. */
    method LinkFirst(ip: nat) returns (ok: bool)
      requires Valid() && ip in nodes
      modifies this`nodes, this`pending
      ensures Valid()
      ensures ok <==> old(nodes[ip]).kind != DIR
      ensures State() == if ok then LinkBegin(old(State()), ip) else old(State())
    {
      hide Inv;
      if nodes[ip].kind == DIR {
        return false;
      }
      LinkBeginKeeps(State(), ip);
      nodes := nodes[ip := Adjust(nodes[ip], 1)];
      pending := pending + multiset{ip};
      ok := true;
    }

    /** sys_link from dirlink on: the entry is written, or nlink is lowered again. */
    method LinkSecond(dp: nat, name: string, ip: nat) returns (ok: bool)
      requires Valid() && dp in nodes && nodes[dp].kind == DIR && ip in pending && ip in nodes
      modifies this`nodes, this`pending
      ensures Valid() <==> Linked(old(nodes[dp])) || !ok
      ensures ok <==> CanAdd(old(State()), dp, name)
      ensures State() == if ok then LinkEnd(old(State()), dp, name, ip) else LinkAbort(old(State()), ip)
    {
      hide Inv;
      ghost var t := State();
      ok := DirLink(dp, name, ip);
      if ok {
        LinkExactIff(t, dp, name, ip);
        pending := pending - multiset{ip};
      } else {
        LinkAbortKeeps(t, ip);
        LastLink(t, ip);
        nodes := nodes[ip := Adjust(nodes[ip], -1)];
        pending := pending - multiset{ip};
        FreeIfLast(ip);
      }
    }

    /** The freeing half of iput. A link under way keeps nlink above 0. */
    method FreeIfLast(i: nat)
      requires i in nodes && nodes[i].nlink == 0 ==> i !in pending
      modifies this`nodes
      ensures State() == Reap(old(State()), i)
    {
      if i in nodes && nodes[i].nlink == 0 && i !in held {
        nodes := nodes - {i};
      }
    }

    static lemma LastLink(t: Tree, i: nat)
      requires Inv(t) && i in t.nodes
      ensures t.nodes[i].nlink == 0 ==> i !in t.pending
      ensures t.nodes[i].nlink == 1 && i in t.pending ==> i !in t.pending - multiset{i}
      ensures t.nodes[i].nlink == 1 && Refs(t.nodes, i) != {} ==> i !in t.pending
    {
      hide Refs;
      assert ExactAt(t, i);
    }

    /** iput by a process that holds a reference. */
    method Iput(i: nat)
      requires Valid() && i in held
      modifies this`nodes, this`held
      ensures Valid() && State() == Put(old(State()), i)
    {
      hide Inv;
      PutKeeps(State(), i);
      if i in nodes { LastLink(State(), i); }
      held := held - multiset{i};
      FreeIfLast(i);
    }

    /** sys_unlink; false is -1. */
    method UnlinkAt(dp: nat, name: string) returns (ok: bool)
      requires Valid() && dp in nodes && nodes[dp].kind == DIR
      modifies this`nodes, this`slot
      ensures Valid() && (ok ==> Linked(old(nodes[dp])))
      ensures ok <==> CanCut(old(State()), dp, name)
      ensures State() == if ok then Unlink(old(State()), dp, name) else old(State())
    {
      hide Inv, Refs;
      ghost var t := State();
      if Clip(name) == "." || Clip(name) == ".." {
        return false;
      }
      var k := DirLookup(dp, name);
      if k == |nodes[dp].ents| {
        return false;
      }
      OnlyDots(t, dp, k);
      var ip := nodes[dp].ents[k].inum;
      Looked(t, dp, k);
      if nodes[ip].kind == DIR {
        var empty := IsDirEmpty(ip);
        if !empty {
          return false;
        }
      }
      UnlinkKeeps(t, dp, name);
      NotLast(t, dp, name);
      nodes := nodes[dp := nodes[dp].(ents := PutEnt(nodes[dp].ents, k, Dirent(0, "")))];
      if nodes[ip].kind == DIR {
        nodes := nodes[dp := Adjust(nodes[dp], -1)];
        slot := slot - {ip};
      }
      nodes := nodes[ip := Adjust(nodes[ip], -1)];
      assert State() == Cut(t, dp, k);
      FreeIfLast(ip);
      ok := true;
    }

    /** A removed directory holds no other names. */
    lemma OnlyDots(t: Tree, dp: nat, k: nat)
      requires Inv(t) && dp in t.nodes && t.nodes[dp].kind == DIR && k < |t.nodes[dp].ents|
               && t.nodes[dp].ents[k].inum != 0
      ensures Linked(t.nodes[dp]) || Clip(t.nodes[dp].ents[k].name) == "." || Clip(t.nodes[dp].ents[k].name) == ".."
    {
      assert DirOk(t, dp);
      assert Clip(".") == "." && Clip("..") == "..";
    }

    /** The inode unlink lowers is another one, and a link under way keeps it above 0. */
    static lemma NotLast(t: Tree, dp: nat, name: string)
      requires Inv(t) && CanCut(t, dp, name) && Linked(t.nodes[dp])
      ensures var ip := t.nodes[dp].ents[Find(t.nodes[dp].ents, name, 0)].inum;
              ip != dp && (t.nodes[ip].nlink == 1 ==> ip !in t.pending)
    {
      var k, ip := CutAt(t, dp, name);
      assert Names(t.nodes[dp], k, ip);
      assert (dp, k) in Refs(t.nodes, ip);
      LastLink(t, ip);
    }
  }
}
