/** What the names in directories mean: over every run, a name in a directory names the inode that the last
    operation on that name gave it. */
module DirNames {

  import opened Directory
  import opened Path

  /** In directory d the name x, as far as DIRSIZ lets it count, names inode i. */
  ghost predicate Means(t: Tree, d: nat, x: string, i: nat) {
    d in t.nodes && t.nodes[d].kind == DIR && i != 0 && Listed(t.nodes[d].ents, x, i)
  }

  ghost predicate Listed(ents: seq<Dirent>, x: string, i: nat) {
    exists k | 0 <= k < |ents| :: ents[k].inum == i && Clip(ents[k].name) == Clip(x)
  }

  predicate Same(x: string, y: string) { Clip(x) == Clip(y) }

  /** The operation decides what name x in directory d means from then on. */
  predicate Sets(op: Op, d: nat, x: string) {
    match op
    case CreateOp(dp, name, _, ip) => (d == dp && Same(x, name)) || d == ip
    case LinkEndOp(dp, name, _) => d == dp && Same(x, name)
    case UnlinkOp(dp, name) => d == dp && Same(x, name)
    case _ => false
  }

  /** After it, x in d names i: what was created or linked there, nothing after unlink; a new directory has
      itself as "." and its parent as "..". */
  predicate Gives(op: Op, d: nat, x: string, i: nat) {
    match op
    case CreateOp(dp, _, kind, ip) =>
      if d == ip then kind == DIR && ((Same(x, ".") && i == ip) || (Same(x, "..") && i == dp)) else i == ip
    case LinkEndOp(_, _, ip) => i == ip
    case _ => false
  }

  // ---------------------------------------------------------------- one directory

  lemma AddMeans(n: Node, name: string, ip: nat, x: string, i: nat)
    requires Find(n.ents, name, 0) == |n.ents| && ip != 0 && i != 0
    ensures Listed(WithEntry(n, name, ip).ents, x, i) <==> if Same(x, name) then i == ip else Listed(n.ents, x, i)
  {
    var k := FirstFree(n.ents, 0);
    var e := WithEntry(n, name, ip).ents;
    ClipTwice(name);
    assert e[k] == Dirent(ip, Clip(name));
    if Listed(n.ents, x, i) {
      var j :| 0 <= j < |n.ents| && n.ents[j].inum == i && Clip(n.ents[j].name) == Clip(x);
      assert j != k && e[j] == n.ents[j];
    }
    if Listed(e, x, i) {
      var j :| 0 <= j < |e| && e[j].inum == i && Clip(e[j].name) == Clip(x);
      if j != k { assert e[j] == n.ents[j]; }
    }
  }

  lemma CutMeans(n: Node, d: nat, k: nat, name: string, x: string, i: nat)
    requires DirShape(n, d) && k < |n.ents| && n.ents[k].inum != 0 && Same(n.ents[k].name, name) && i != 0
    ensures Listed(PutEnt(n.ents, k, Dirent(0, "")), x, i) <==> !Same(x, name) && Listed(n.ents, x, i)
  {
    var e := PutEnt(n.ents, k, Dirent(0, ""));
    if Listed(n.ents, x, i) {
      var j :| 0 <= j < |n.ents| && n.ents[j].inum == i && Clip(n.ents[j].name) == Clip(x);
      if j != k { assert e[j] == n.ents[j]; }
    }
    if Listed(e, x, i) {
      var j :| 0 <= j < |e| && e[j].inum == i && Clip(e[j].name) == Clip(x);
      assert j != k && e[j] == n.ents[j];
    }
  }

  lemma NewMeans(dp: nat, ip: nat, x: string, i: nat)
    ensures Listed(NewNode(dp, DIR, ip).ents, x, i) <==> (Same(x, ".") && i == ip) || (Same(x, "..") && i == dp)
  {
    var e := NewNode(dp, DIR, ip).ents;
    assert e[0] == Dirent(ip, ".") && e[1] == Dirent(dp, "..");
    assert |e| == 2;
  }

  // ---------------------------------------------------------------- one operation

  lemma CreateMeans(t: Tree, dp: nat, name: string, kind: Kind, ip: nat, d: nat, x: string, i: nat)
    requires CanAdd(t, dp, name) && ip !in t.nodes && ip != 0
    requires d in Create(t, dp, name, kind, ip).nodes
    ensures var op := CreateOp(dp, name, kind, ip);
            if Sets(op, d, x) then Means(Create(t, dp, name, kind, ip), d, x, i) <==> i != 0 && Gives(op, d, x, i)
            else d in t.nodes && (Means(Create(t, dp, name, kind, ip), d, x, i) <==> Means(t, d, x, i))
  {
    hide Listed, Same, FirstFree, Find;
    if i != 0 {
      AddMeans(t.nodes[dp], name, ip, x, i);
      NewMeans(dp, ip, x, i);
      NothingListed(x, i);
    }
  }

  lemma NothingListed(x: string, i: nat)
    ensures !Listed([], x, i)
  {
  }

  lemma LinkMeans(t: Tree, dp: nat, name: string, ip: nat, d: nat, x: string, i: nat)
    requires CanAdd(t, dp, name) && ip != 0 && d in LinkEnd(t, dp, name, ip).nodes
    ensures d in t.nodes
    ensures Means(LinkEnd(t, dp, name, ip), d, x, i) <==>
            if d == dp && Same(x, name) then i == ip else Means(t, d, x, i)
  {
    hide Listed, Same, FirstFree, Find;
    if i != 0 {
      AddMeans(t.nodes[dp], name, ip, x, i);
    }
  }

  lemma UnlinkMeans(t: Tree, dp: nat, name: string, d: nat, x: string, i: nat)
    requires Inv(t) && CanCut(t, dp, name) && Linked(t.nodes[dp])
    requires d in Unlink(t, dp, name).nodes
    ensures d in t.nodes
    ensures Means(Unlink(t, dp, name), d, x, i) <==> !(d == dp && Same(x, name)) && Means(t, d, x, i)
  {
    var k, ip := CutAt(t, dp, name);
    assert DirOk(t, dp);
    if i != 0 {
      CutMeans(t.nodes[dp], dp, k, name, x, i);
    }
    hide Inv, DirShape, Listed, Find;
  }

  lemma StepMeans(t: Tree, op: Op, d: nat, x: string, i: nat)
    requires Inv(t) && Enabled(t, op) && d in Do(t, op).nodes
    ensures if Sets(op, d, x) then Means(Do(t, op), d, x, i) <==> i != 0 && Gives(op, d, x, i)
            else d in t.nodes && (Means(Do(t, op), d, x, i) <==> Means(t, d, x, i))
  {
    hide Means, Same, Create, LinkEnd, Unlink, Refs;
    match op
    case CreateOp(dp, name, kind, ip) => CreateMeans(t, dp, name, kind, ip, d, x, i);
    case LinkEndOp(dp, name, ip) => LinkMeans(t, dp, name, ip, d, x, i);
    case UnlinkOp(dp, name) => UnlinkMeans(t, dp, name, d, x, i);
    case _ => OtherMeans(t, op, d, x, i);
  }

  /** The other operations change no directory. */
  lemma OtherMeans(t: Tree, op: Op, d: nat, x: string, i: nat)
    requires Enabled(t, op) && d in Do(t, op).nodes
    requires !op.CreateOp? && !op.LinkEndOp? && !op.UnlinkOp?
    ensures d in t.nodes && (Means(Do(t, op), d, x, i) <==> Means(t, d, x, i))
  {
    hide Listed;
    assert Do(t, op).nodes[d].ents == t.nodes[d].ents && Do(t, op).nodes[d].kind == t.nodes[d].kind;
  }

  // ---------------------------------------------------------------- whole runs

  /** Operation k of the run is the last that decides what x in d means. */
  predicate LastSets(ops: seq<Op>, k: nat, d: nat, x: string) {
    k < |ops| && Sets(ops[k], d, x) && forall j | k < j < |ops| :: !Sets(ops[j], d, x)
  }

  predicate NoneSets(ops: seq<Op>, d: nat, x: string) {
    forall j | 0 <= j < |ops| :: !Sets(ops[j], d, x)
  }

  lemma {:induction false} RunMeans(t: Tree, ops: seq<Op>, d: nat, x: string, i: nat)
    requires Inv(t) && Possible(t, ops) && d in Exec(t, ops).nodes && i != 0
    ensures forall k: nat | LastSets(ops, k, d, x) :: Means(Exec(t, ops), d, x, i) <==> Gives(ops[k], d, x, i)
    ensures NoneSets(ops, d, x) ==> d in t.nodes && (Means(Exec(t, ops), d, x, i) <==> Means(t, d, x, i))
    decreases |ops|
  {
    hide Inv, Do, Enabled, Means, Sets, Gives;
    if ops != [] {
      var t1, rest := Do(t, ops[0]), ops[1..];
      InvStep(t, ops[0]);
      RunMeans(t1, rest, d, x, i);
      forall k: nat | LastSets(ops, k, d, x) ensures Means(Exec(t, ops), d, x, i) <==> Gives(ops[k], d, x, i) {
        if k > 0 {
          assert LastSets(rest, k - 1, d, x);
        } else {
          assert forall j | 0 <= j < |rest| :: rest[j] == ops[j + 1];
          StepMeans(t, ops[0], d, x, i);
        }
      }
      if NoneSets(ops, d, x) {
        assert forall j | 0 <= j < |rest| :: rest[j] == ops[j + 1];
        StepMeans(t, ops[0], d, x, i);
      }
    }
  }

  /** On every run of the image mkfs starts from, a name in an allocated directory names exactly the inode that
      the last create, link or unlink of that name there left it with; names nobody has touched are those of a
      new directory. */
  lemma NamesLastGiven(ops: seq<Op>, d: nat, x: string, i: nat)
    requires Possible(Start(), ops) && d in Exec(Start(), ops).nodes && i != 0
    ensures forall k: nat | LastSets(ops, k, d, x) :: Means(Exec(Start(), ops), d, x, i) <==> Gives(ops[k], d, x, i)
    ensures NoneSets(ops, d, x) ==>
              d == ROOTINO
              && (Means(Exec(Start(), ops), d, x, i) <==> i == ROOTINO && (Same(x, ".") || Same(x, "..")))
  {
    StartInv();
    RunMeans(Start(), ops, d, x, i);
    NewMeans(ROOTINO, ROOTINO, x, i);
  }

  // ---------------------------------------------------------------- paths

  /** ids are the inodes met on the way from i along the names cs to m. */
  ghost predicate Way(t: Tree, i: nat, cs: seq<string>, m: nat, ids: seq<nat>) {
    && |ids| == |cs| + 1 && ids[0] == i && ids[|cs|] == m
    && forall k | 0 <= k < |cs| :: Means(t, ids[k], cs[k], ids[k + 1])
  }

  /** Names of a directory are distinct, so that the scan finds what a name means. */
  lemma FindMeans(t: Tree, d: nat, x: string, i: nat)
    requires Shaped(t) && d in t.nodes && t.nodes[d].kind == DIR
    ensures var k := Find(t.nodes[d].ents, x, 0);
            Means(t, d, x, i) <==> k < |t.nodes[d].ents| && t.nodes[d].ents[k].inum == i
  {
    assert DirOk(t, d);
    var ents := t.nodes[d].ents;
    var k := Find(ents, x, 0);
    if Means(t, d, x, i) {
      var j :| 0 <= j < |ents| && ents[j].inum == i && Clip(ents[j].name) == Clip(x);
      assert k <= j;
      assert ents[k].name == ents[j].name;
    }
  }

  /** namex ends at inode m exactly if every name on the way means the next inode. */
  lemma {:induction false} ResolveIff(t: Tree, i: nat, cs: seq<string>, m: nat)
    requires Shaped(t)
    ensures Resolve(t.nodes, i, cs) == At(m) <==> exists ids :: Way(t, i, cs, m, ids)
    decreases |cs|
  {
    hide Shaped, Find, Means;
    if cs == [] {
      assert i == m ==> Way(t, i, cs, m, [i]);
    } else if i in t.nodes && t.nodes[i].kind == DIR {
      var ents := t.nodes[i].ents;
      var k := Find(ents, cs[0], 0);
      if k < |ents| {
        var j := ents[k].inum;
        ResolveIff(t, j, cs[1..], m);
        FindMeans(t, i, cs[0], j);
        if ids :| Way(t, j, cs[1..], m, ids) { assert Way(t, i, cs, m, [i] + ids); }
      }
      if ids :| Way(t, i, cs, m, ids) {
        FindMeans(t, i, cs[0], ids[1]);
        assert Means(t, ids[0], cs[0], ids[1]);
        assert Way(t, ids[1], cs[1..], m, ids[1..]);
      }
    } else if ids :| Way(t, i, cs, m, ids) {
      assert Means(t, ids[0], cs[0], ids[1]);
      NotThere(t, i, cs[0], ids[1]);
    }
  }

  lemma NotThere(t: Tree, d: nat, x: string, i: nat)
    requires Means(t, d, x, i)
    ensures d in t.nodes && t.nodes[d].kind == DIR
  {
  }
}
