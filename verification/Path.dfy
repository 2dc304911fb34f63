/** fs.c's path walk: skipelem and namex over the directories of module Directory. */
module Path {
  import opened Common
  import opened Directory

  // ---------------------------------------------------------------- path elements

  /** How many leading characters belong to the first element. */
  function ElemLen(p: string): (n: nat)
    ensures n <= |p|
    ensures forall i | 0 <= i < n :: p[i] != '/'
    ensures n < |p| ==> p[n] == '/'
  {
    if p == "" || p[0] == '/' then 0 else 1 + ElemLen(p[1..])
  }

  /** The non-empty stretches between slashes. */
  function Components(p: string): (cs: seq<string>)
    ensures forall i | 0 <= i < |cs| :: cs[i] != "" && '/' !in cs[i]
    decreases |p|
  {
    if p == "" then []
    else if p[0] == '/' then Components(p[1..])
    else [p[..ElemLen(p)]] + Components(p[ElemLen(p)..])
  }

  function Slashed(cs: seq<string>): (p: string) {
    if cs == [] then "" else "/" + cs[0] + Slashed(cs[1..])
  }

  lemma {:induction false} ElemLenBefore(c: string, rest: string)
    requires '/' !in c && (rest == "" || rest[0] == '/')
    ensures ElemLen(c + rest) == |c|
    decreases |c|
  {
    if c == "" {
      assert c + rest == rest;
    } else {
      var p := c + rest;
      assert p[0] == c[0] && c[0] in c && p[1..] == c[1..] + rest;
      ElemLenBefore(c[1..], rest);
    }
  }

  lemma FirstElement(c: string, rest: string)
    requires c != "" && '/' !in c && (rest == "" || rest[0] == '/')
    ensures Components(c + rest) == [c] + Components(rest)
  {
    hide ElemLen;
    var p := c + rest;
    ElemLenBefore(c, rest);
    assert p[0] == c[0] && c[0] in c;
    assert p[..|c|] == c && p[|c|..] == rest;
  }

  /** Printing elements with slashes and splitting again gives the same elements. */
  lemma {:induction false} SplitPrinted(cs: seq<string>)
    requires forall i | 0 <= i < |cs| :: cs[i] != "" && '/' !in cs[i]
    ensures Components(Slashed(cs)) == cs
  {
    if cs != [] {
      var p, rest := Slashed(cs), Slashed(cs[1..]);
      SplitPrinted(cs[1..]);
      assert p == "/" + (cs[0] + rest) && p[1..] == cs[0] + rest;
      FirstElement(cs[0], rest);
    }
  }

  /** A slash splits a path into the elements before and after it. */
  lemma {:induction false} SplitAtSlash(a: string, b: string)
    ensures Components(a + "/" + b) == Components(a) + Components(b)
    decreases |a|
  {
    hide ElemLen;
    var p := a + "/" + b;
    if a == "" {
      assert p[1..] == b;
    } else if a[0] == '/' {
      assert p[1..] == a[1..] + "/" + b;
      SplitAtSlash(a[1..], b);
    } else {
      var n := ElemLen(a);
      assert a == a[..n] + a[n..];
      ElemLenBefore(a[..n], a[n..] + "/" + b);
      assert p == a[..n] + (a[n..] + "/" + b);
      assert p[n..] == a[n..] + "/" + b && p[..n] == a[..n];
      SplitAtSlash(a[n..], b);
    }
  }

  lemma SlashesSkipped(p: string, i: nat, j: nat)
    requires i <= j <= |p| && forall k | i <= k < j :: p[k] == '/'
    ensures Components(p[i..]) == Components(p[j..])
    decreases j - i
  {
    if i < j {
      assert p[i..][1..] == p[i + 1..];
      SlashesSkipped(p, i + 1, j);
    }
  }

  lemma ElementTaken(p: string, i: nat, j: nat)
    requires i < j <= |p| && (forall k | i <= k < j :: p[k] != '/') && (j < |p| ==> p[j] == '/')
    ensures Components(p[i..]) == [p[i..j]] + Components(p[j..])
  {
    assert p[i..] == p[i..j] + p[j..];
    ElemLenBefore(p[i..j], p[j..]);
    assert p[i..][..j - i] == p[i..j] && p[i..][j - i..] == p[j..];
  }

  lemma ComponentsEmpty()
    ensures Components("") == []
  {
  }

  lemma ComponentsSome(p: string)
    requires p != "" && p[0] != '/'
    ensures Components(p) != []
  {
  }

  /** What is left of an element after the copy into name[DIRSIZ]. */
  function Copied(e: string): (r: string) { if |e| >= DIRSIZ then e[..DIRSIZ] else e }

  /** skipelem: the first element, and the path after it and its slashes; None if there is no element. */
  method Skipelem(path: string) returns (rest: Option<string>, name: string)
    ensures rest.None? <==> Components(path) == []
    ensures rest.Some? ==> Components(path)[1..] == Components(rest.value) && name == Copied(Components(path)[0])
    ensures rest.Some? ==> (rest.value == "" <==> |Components(path)| == 1) && |rest.value| < |path|
  {
    hide ElemLen, Components;
    ComponentsEmpty();
    name := "";
    var i := 0;
    while i < |path| && path[i] == '/'
      invariant 0 <= i <= |path| && forall k | 0 <= k < i :: path[k] == '/'
    {
      i := i + 1;
    }
    SlashesSkipped(path, 0, i);
    assert path[0..] == path;
    if i == |path| {
      assert path[i..] == "";
      return None, name;
    }
    var j := i;
    while j < |path| && path[j] != '/'
      invariant i <= j <= |path| && (forall k | i <= k < j :: path[k] != '/')
      invariant i < j || path[i] != '/'
    {
      j := j + 1;
    }
    ElementTaken(path, i, j);
    name := if j - i >= DIRSIZ then path[i..i + DIRSIZ] else path[i..j];
    assert path[i..j][..Min(DIRSIZ, j - i)] == name;
    var k := j;
    while k < |path| && path[k] == '/'
      invariant j <= k <= |path| && forall m | j <= m < k :: path[m] == '/'
    {
      k := k + 1;
    }
    SlashesSkipped(path, j, k);
    if k < |path| { ComponentsSome(path[k..]); }
    rest := Some(path[k..]);
  }

  // ---------------------------------------------------------------- lookups

  /** Where a lookup ends: at an inode, at a name that is missing or looked up in something that is not a
      directory, or in the panic of ilock on an inode that has been freed. */
  datatype Found = At(inum: nat) | Missing | Freed

  /** Following names one after the other from inode i. */
  function Resolve(nodes: map<nat, Node>, i: nat, cs: seq<string>): (r: Found)
    decreases |cs|
  {
    if cs == [] then At(i)
    else if i !in nodes then Freed
    else if nodes[i].kind != DIR then Missing
    else
      var k := Find(nodes[i].ents, cs[0], 0);
      if k == |nodes[i].ents| then Missing else Resolve(nodes, nodes[i].ents[k].inum, cs[1..])
  }

  /** Looking up a path is looking up its first part, then the rest from there. */
  lemma {:induction false} ResolveAppend(nodes: map<nat, Node>, i: nat, xs: seq<string>, ys: seq<string>)
    ensures Resolve(nodes, i, xs + ys) ==
            match Resolve(nodes, i, xs) { case At(m) => Resolve(nodes, m, ys) case other => other }
    decreases |xs|
  {
    if xs == [] {
      assert xs + ys == ys;
    } else {
      assert (xs + ys)[0] == xs[0] && (xs + ys)[1..] == xs[1..] + ys;
      if i in nodes && nodes[i].kind == DIR {
        var k := Find(nodes[i].ents, xs[0], 0);
        if k < |nodes[i].ents| {
          ResolveAppend(nodes, nodes[i].ents[k].inum, xs[1..], ys);
        }
      }
    }
  }

  /** A walk that starts in a linked directory never meets an inode that has been freed, so that ilock does not
      panic, and every directory it reaches is linked. */
  lemma {:induction false} WalkStaysAllocated(t: Tree, i: nat, cs: seq<string>)
    requires Inv(t) && i in t.nodes && (t.nodes[i].kind == DIR ==> Linked(t.nodes[i]))
    ensures var r := Resolve(t.nodes, i, cs);
            r != Freed && (r.At? ==> r.inum in t.nodes && (t.nodes[r.inum].kind == DIR ==> Linked(t.nodes[r.inum])))
    decreases |cs|
  {
    if cs != [] && t.nodes[i].kind == DIR {
      var k := Find(t.nodes[i].ents, cs[0], 0);
      if k < |t.nodes[i].ents| {
        assert DirOk(t, i);
        if k >= 2 { assert EntryOk(t, i, k); }
        WalkStaysAllocated(t, t.nodes[i].ents[k].inum, cs[1..]);
      }
    }
  }

  /** ilock and the type test on the directory where nameiparent stops. */
  function Locked(nodes: map<nat, Node>, f: Found): (r: Found) {
    if !f.At? then f else if f.inum !in nodes then Freed else if nodes[f.inum].kind != DIR then Missing else f
  }

  /** namex from the root or the current directory. With nameiparent it stops one element early, at a directory
      that it has locked. */
  method Namex(nodes: map<nat, Node>, path: string, cwd: nat, nameiparent: bool) returns (r: Found, name: string)
    ensures var start := if path != "" && path[0] == '/' then ROOTINO else cwd;
            var cs := Components(path);
            && (!nameiparent ==> r == Resolve(nodes, start, cs))
            && (nameiparent && cs == [] ==> r == Missing)
            && (nameiparent && cs != [] ==>
                  && r == Locked(nodes, Resolve(nodes, start, cs[..|cs| - 1]))
                  && (r.At? ==> name == Copied(cs[|cs| - 1])))
  {
    hide Components, Find, Copied, Resolve;
    var ip: nat := if path != "" && path[0] == '/' then ROOTINO else cwd;
    ResolveSelf(nodes, ip);
    ghost var start, cs := ip, Components(path);
    name := "";
    var p := path;
    ghost var done := 0;
    while true
      invariant 0 <= done <= |cs| && Components(p) == cs[done..]
      invariant nameiparent ==> done < |cs| || cs == []
      invariant Resolve(nodes, start, cs[..done]) == At(ip)
      decreases |p|
    {
      var rest;
      rest, name := Skipelem(p);
      if rest.None? {
        assert cs[..done] == cs;
        return if nameiparent then Missing else At(ip), name;
      }
      assert cs[done..][0] == cs[done] && cs[done..][1..] == cs[done + 1..];
      ghost var front := cs[..done];
      OneMore(nodes, start, cs, done, ip);
      if nameiparent && rest.value == "" { assert cs[..|cs| - 1] == front; }
      if ip !in nodes {
        ResolveOne(nodes, ip, cs[done]);
        Stuck(nodes, start, cs, done, ip);
        return Freed, name;
      }
      if nodes[ip].kind != DIR {
        ResolveOne(nodes, ip, cs[done]);
        Stuck(nodes, start, cs, done, ip);
        return Missing, name;
      }
      if nameiparent && rest.value == "" {
        return At(ip), name;
      }
      FindCopied(nodes[ip].ents, cs[done], 0);
      ResolveOne(nodes, ip, cs[done]);
      var k := Find(nodes[ip].ents, name, 0);
      if k == |nodes[ip].ents| {
        Stuck(nodes, start, cs, done, ip);
        return Missing, name;
      }
      ip := nodes[ip].ents[k].inum;
      p := rest.value;
      done := done + 1;
    }
  }

  lemma ResolveSelf(nodes: map<nat, Node>, i: nat)
    ensures Resolve(nodes, i, []) == At(i)
  {
  }

  lemma ResolveOne(nodes: map<nat, Node>, i: nat, c: string)
    ensures Resolve(nodes, i, [c]) ==
            if i !in nodes then Freed else if nodes[i].kind != DIR then Missing
            else var k := Find(nodes[i].ents, c, 0); if k == |nodes[i].ents| then Missing else At(nodes[i].ents[k].inum)
  {
    assert [c][1..] == [];
  }

  /** The copy in name[DIRSIZ] finds what the element finds. */
  lemma FindCopied(ents: seq<Dirent>, e: string, from: nat)
    requires from <= |ents|
    ensures Find(ents, Copied(e), from) == Find(ents, e, from)
    decreases |ents| - from
  {
    ClipCopied(e, DIRSIZ);
    if from < |ents| { FindCopied(ents, e, from + 1); }
  }

  lemma {:induction false} ClipCopied(e: string, n: nat)
    ensures |e| >= n ==> ClipTo(e[..n], n) == ClipTo(e, n)
  {
    if n > 0 && |e| >= n {
      ClipCopied(e[1..], n - 1);
      assert e[..n][1..] == e[1..][..n - 1];
    }
  }

  lemma OneMore(nodes: map<nat, Node>, start: nat, cs: seq<string>, done: nat, ip: nat)
    requires done < |cs| && Resolve(nodes, start, cs[..done]) == At(ip)
    ensures Resolve(nodes, start, cs[..done + 1]) == Resolve(nodes, ip, [cs[done]])
    ensures Resolve(nodes, start, cs) == Resolve(nodes, ip, cs[done..])
  {
    ResolveAppend(nodes, start, cs[..done], [cs[done]]);
    assert cs[..done + 1] == cs[..done] + [cs[done]];
    ResolveAppend(nodes, start, cs[..done], cs[done..]);
    assert cs == cs[..done] + cs[done..];
  }

  /** A lookup that fails at one element fails for the path, and for its parent unless it is the last. */
  lemma Stuck(nodes: map<nat, Node>, start: nat, cs: seq<string>, done: nat, ip: nat)
    requires done < |cs| && Resolve(nodes, start, cs[..done]) == At(ip)
    requires !Resolve(nodes, ip, [cs[done]]).At?
    ensures Resolve(nodes, start, cs) == Resolve(nodes, ip, [cs[done]])
    ensures done < |cs| - 1 ==> Resolve(nodes, start, cs[..|cs| - 1]) == Resolve(nodes, ip, [cs[done]])
  {
    OneMore(nodes, start, cs, done, ip);
    ResolveAppend(nodes, ip, [cs[done]], cs[done + 1..]);
    assert cs[done..] == [cs[done]] + cs[done + 1..];
    if done < |cs| - 1 {
      var front := cs[..|cs| - 1];
      assert front[..done] == cs[..done] && front[done] == cs[done];
      OneMore(nodes, start, front, done, ip);
      ResolveAppend(nodes, ip, [cs[done]], front[done + 1..]);
      assert front[done..] == [cs[done]] + front[done + 1..];
    }
  }
}
