/** BootManager2D's DemoGame.c: boot entries are hidden behind escape cells of the map, and walking onto
    one boots it. */
module BootMap {
  import opened Common

  const ESCAPES := 12
  const FIRST_ESCAPE := 10

  /** A map of width w and height h, row by row. */
  predicate Grid(m: seq<int>, w: nat, h: nat) { |m| == w * h }

  lemma InGrid(w: nat, h: nat, x: nat, y: nat)
    requires x < w && y < h
    ensures 0 <= y * w + x < w * h
  {
    assert y * w + x < y * w + w == (y + 1) * w <= h * w;
  }

  lemma RowsApart(w: nat, y: nat, y': nat)
    requires y < y'
    ensures y * w + w <= y' * w
  {
    assert y' * w == (y + 1) * w + (y' - y - 1) * w;
  }

  /** Different coordinates are different cells. */
  lemma CellsDiffer(w: nat, x: nat, y: nat, x': nat, y': nat)
    requires x < w && x' < w && y * w + x == y' * w + x'
    ensures x == x' && y == y'
  {
    if y < y' {
      RowsApart(w, y, y');
    } else if y' < y {
      RowsApart(w, y', y);
    }
  }

  function Cell(m: seq<int>, w: nat, h: nat, x: nat, y: nat): (v: int)
    requires Grid(m, w, h) && x < w && y < h
  {
    InGrid(w, h, x, y);
    m[y * w + x]
  }

  predicate IsEscape(v: int, start: nat) { FIRST_ESCAPE <= v < start }

  // ---------------------------------------------------------------- placing one entry

  /** The escape cells from (x, y) on, column by column. */
  function Count(m: seq<int>, w: nat, h: nat, start: nat, x: nat, y: nat): (n: nat)
    requires Grid(m, w, h) && x <= w && y <= h
    decreases w - x, h - y
  {
    if x == w then 0
    else if y == h then Count(m, w, h, start, x + 1, 0)
    else (if IsEscape(Cell(m, w, h, x, y), start) then 1 else 0) + Count(m, w, h, start, x, y + 1)
  }

  /** The cell of the r-th escape from (x, y) on. */
  function Nth(m: seq<int>, w: nat, h: nat, start: nat, r: nat, x: nat, y: nat): (c: Option<nat>)
    requires Grid(m, w, h) && x <= w && y <= h
    ensures c.Some? ==> c.value < |m| && IsEscape(m[c.value], start)
    decreases w - x, h - y
  {
    if x == w then None
    else if y == h then Nth(m, w, h, start, r, x + 1, 0)
    else if !IsEscape(Cell(m, w, h, x, y), start) then Nth(m, w, h, start, r, x, y + 1)
    else if r == 0 then InGrid(w, h, x, y); Some(y * w + x)
    else Nth(m, w, h, start, r - 1, x, y + 1)
  }

  /** There is an r-th escape exactly when there are more than r. */
  lemma {:induction false} NthExists(m: seq<int>, w: nat, h: nat, start: nat, r: nat, x: nat, y: nat)
    requires Grid(m, w, h) && x <= w && y <= h
    ensures Nth(m, w, h, start, r, x, y).Some? <==> Count(m, w, h, start, x, y) > r
    decreases w - x, h - y
  {
    if x < w {
      if y == h {
        NthExists(m, w, h, start, r, x + 1, 0);
      } else if !IsEscape(Cell(m, w, h, x, y), start) {
        NthExists(m, w, h, start, r, x, y + 1);
      } else if r > 0 {
        NthExists(m, w, h, start, r - 1, x, y + 1);
      }
    }
  }

  /** One turn of PlaceBootEntries: the r-th escape cell becomes v. */
  function PlaceOne(m: seq<int>, w: nat, h: nat, start: nat, r: nat, v: int): (m': seq<int>)
    requires Grid(m, w, h)
    ensures |m'| == |m|
  {
    match Nth(m, w, h, start, r, 0, 0)
    case None => m
    case Some(c) => m[c := v]
  }

  /** The two inner loops of PlaceBootEntries; placed tells whether the texture list grew. */
  method PlaceInMap(map_: array<int>, w: nat, h: nat, start: nat, r: nat, v: int) returns (placed: bool)
    requires Grid(map_[..], w, h) && v >= start
    modifies map_
    ensures map_[..] == PlaceOne(old(map_[..]), w, h, start, r, v)
    ensures placed <==> Nth(old(map_[..]), w, h, start, r, 0, 0).Some?
  {
    ghost var m0 := map_[..];
    ghost var goal := Nth(m0, w, h, start, r, 0, 0);
    placed := false;
    var count := 0;
    var x := 0;
    while x < w
      invariant 0 <= x <= w && map_.Length == |m0|
      invariant placed ==> goal.Some? && count > r && map_[..] == m0[goal.value := v]
      invariant !placed ==> count <= r && map_[..] == m0 && goal == Nth(m0, w, h, start, r - count, x, 0)
    {
      var y := 0;
      while y < h
        invariant 0 <= y <= h && map_.Length == |m0|
        invariant placed ==> goal.Some? && count > r && map_[..] == m0[goal.value := v]
        invariant !placed ==> count <= r && map_[..] == m0 && goal == Nth(m0, w, h, start, r - count, x, y)
      {
        InGrid(w, h, x, y);
        var cell := map_[y * w + x];
        if FIRST_ESCAPE <= cell < start {
          if count == r {
            map_[y * w + x] := v;
            placed := true;
          }
          count := count + 1;
        }
        y := y + 1;
      }
      x := x + 1;
    }
  }

  /** A cell at or after (x, y) in the order of the scan. */
  predicate FromHere(x: nat, y: nat, cx: nat, cy: nat) { cx > x || (cx == x && cy >= y) }

  /** Overwriting an escape cell leaves one escape less. */
  lemma {:induction false} CountAfter(m: seq<int>, w: nat, h: nat, start: nat, cx: nat, cy: nat, v: int, x: nat, y: nat)
    requires Grid(m, w, h) && x <= w && y <= h && cx < w && cy < h && IsEscape(Cell(m, w, h, cx, cy), start)
             && v >= start
    ensures 0 <= cy * w + cx < |m|
    ensures Count(m[cy * w + cx := v], w, h, start, x, y) ==
            Count(m, w, h, start, x, y) - (if FromHere(x, y, cx, cy) then 1 else 0)
    decreases w - x, h - y
  {
    InGrid(w, h, cx, cy);
    var m' := m[cy * w + cx := v];
    if x < w {
      if y == h {
        CountAfter(m, w, h, start, cx, cy, v, x + 1, 0);
      } else {
        CountAfter(m, w, h, start, cx, cy, v, x, y + 1);
        InGrid(w, h, x, y);
        if (x, y) != (cx, cy) {
          if y * w + x == cy * w + cx { CellsDiffer(w, x, y, cx, cy); }
        }
      }
    }
  }

  /** Where the r-th escape is. */
  lemma {:induction false} NthIsCell(m: seq<int>, w: nat, h: nat, start: nat, r: nat, x: nat, y: nat)
    returns (cx: nat, cy: nat)
    requires Grid(m, w, h) && x <= w && y <= h && Nth(m, w, h, start, r, x, y).Some?
    ensures cx < w && cy < h && Nth(m, w, h, start, r, x, y) == Some(cy * w + cx)
            && IsEscape(Cell(m, w, h, cx, cy), start)
    decreases w - x, h - y
  {
    if y == h {
      cx, cy := NthIsCell(m, w, h, start, r, x + 1, 0);
    } else if !IsEscape(Cell(m, w, h, x, y), start) {
      cx, cy := NthIsCell(m, w, h, start, r, x, y + 1);
    } else if r > 0 {
      cx, cy := NthIsCell(m, w, h, start, r - 1, x, y + 1);
    } else {
      cx, cy := x, y;
    }
  }

  lemma PlaceOneUsesOne(m: seq<int>, w: nat, h: nat, start: nat, r: nat, v: int)
    requires Grid(m, w, h) && v >= start && Nth(m, w, h, start, r, 0, 0).Some?
    ensures Count(PlaceOne(m, w, h, start, r, v), w, h, start, 0, 0) == Count(m, w, h, start, 0, 0) - 1
  {
    var cx, cy := NthIsCell(m, w, h, start, r, 0, 0);
    CountAfter(m, w, h, start, cx, cy, v, 0, 0);
  }

  // ---------------------------------------------------------------- placing all entries

  /** The map and the number of textures added after the first n entries, for a sequence of values of rand(). */
  function PlaceAll(m: seq<int>, w: nat, h: nat, start: nat, rands: seq<nat>, n: nat): (r: (seq<int>, nat))
    requires Grid(m, w, h) && n <= |rands| && n <= ESCAPES
    ensures |r.0| == |m| && r.1 <= n
  {
    if n == 0 then (m, 0)
    else
      var (m1, added) := PlaceAll(m, w, h, start, rands, n - 1);
      var index := rands[n - 1] % (ESCAPES - (n - 1));
      (PlaceOne(m1, w, h, start, index, start + added),
       if Nth(m1, w, h, start, index, 0, 0).Some? then added + 1 else added)
  }

  /** PlaceBootEntries; after ESCAPES entries it divides by zero, and does not return. */
  method PlaceBootEntries(map_: array<int>, w: nat, h: nat, textures: nat, rands: seq<nat>, entries: nat)
    returns (ok: bool, textures': nat)
    requires Grid(map_[..], w, h) && entries <= |rands|
    modifies map_
    ensures ok <==> entries <= ESCAPES
    ensures (map_[..], textures' - textures) ==
            PlaceAll(old(map_[..]), w, h, textures, rands, if ok then entries else ESCAPES)
  {
    textures' := textures;
    ghost var m0 := map_[..];
    for i := 0 to entries
      invariant i <= ESCAPES && textures <= textures' && Grid(map_[..], w, h)
      invariant (map_[..], textures' - textures) == PlaceAll(m0, w, h, textures, rands, i)
    {
      if i == ESCAPES {
        return false, textures';
      }
      var placed := PlaceInMap(map_, w, h, textures, rands[i] % (ESCAPES - i), textures');
      if placed { textures' := textures' + 1; }
    }
    ok := true;
  }

  /** at[i] is the cell of entry i: a former escape cell, one per entry; every other cell is as before. */
  ghost predicate Placed(m: seq<int>, m': seq<int>, start: nat, at: seq<nat>) {
    && |m'| == |m|
    && (forall i | 0 <= i < |at| :: at[i] < |m| && IsEscape(m[at[i]], start) && m'[at[i]] == start + i)
    && (forall i, j | 0 <= i < j < |at| :: at[i] != at[j])
    && (forall c | 0 <= c < |m| && c !in at :: m'[c] == m[c])
  }

  /** With at least ESCAPES escape cells every entry is placed, whatever rand() returns. */
  lemma {:induction false} AllPlaced(m: seq<int>, w: nat, h: nat, start: nat, rands: seq<nat>, n: nat)
    returns (at: seq<nat>)
    requires Grid(m, w, h) && n <= |rands| && n <= ESCAPES && Count(m, w, h, start, 0, 0) >= ESCAPES
    ensures var (m', added) := PlaceAll(m, w, h, start, rands, n);
            added == n && |at| == n && Placed(m, m', start, at)
            && Count(m', w, h, start, 0, 0) == Count(m, w, h, start, 0, 0) - n
  {
    if n == 0 {
      at := [];
    } else {
      var at0 := AllPlaced(m, w, h, start, rands, n - 1);
      var (m1, added) := PlaceAll(m, w, h, start, rands, n - 1);
      var index := rands[n - 1] % (ESCAPES - (n - 1));
      NthExists(m1, w, h, start, index, 0, 0);
      PlaceOneUsesOne(m1, w, h, start, index, start + added);
      var c := Nth(m1, w, h, start, index, 0, 0).value;
      at := at0 + [c];
      assert c !in at0;
      hide Count, Nth;
      var m' := PlaceAll(m, w, h, start, rands, n).0;
      assert m' == m1[c := start + added];
      forall d | 0 <= d < |m| && d !in at ensures m'[d] == m[d] { assert at[n - 1] == c; }
    }
  }

  /** ESCAPES escape cells are exactly what it takes: with fewer, rand() can leave the first entry out. */
  lemma PlacementIff(m: seq<int>, w: nat, h: nat, start: nat, n: nat)
    requires Grid(m, w, h) && 1 <= n <= ESCAPES
    ensures (forall rands: seq<nat> | |rands| == n :: PlaceAll(m, w, h, start, rands, n).1 == n) <==>
            Count(m, w, h, start, 0, 0) >= ESCAPES
  {
    if Count(m, w, h, start, 0, 0) >= ESCAPES {
      forall rands: seq<nat> | |rands| == n ensures PlaceAll(m, w, h, start, rands, n).1 == n {
        var _ := AllPlaced(m, w, h, start, rands, n);
      }
    } else {
      var rands := seq(n, _ => ESCAPES - 1);
      FirstLeftOut(m, w, h, start, rands, n);
    }
  }

  lemma {:induction false} FirstLeftOut(m: seq<int>, w: nat, h: nat, start: nat, rands: seq<nat>, n: nat)
    requires Grid(m, w, h) && 1 <= n <= ESCAPES && n <= |rands| && rands[0] == ESCAPES - 1
    requires Count(m, w, h, start, 0, 0) < ESCAPES
    ensures PlaceAll(m, w, h, start, rands, n).1 < n
  {
    if n == 1 {
      assert PlaceAll(m, w, h, start, rands, 0) == (m, 0);
      NthExists(m, w, h, start, ESCAPES - 1, 0, 0);
    } else {
      FirstLeftOut(m, w, h, start, rands, n - 1);
    }
  }

  // ---------------------------------------------------------------- the walk

  datatype Key = Up | Down | Left | Right | Esc | OtherKey

  datatype Outcome = Walking | Escaped | Booted(entry: nat)

  datatype Player = Player(x: nat, y: nat, outcome: Outcome)

  predicate Inside(p: Player, w: nat, h: nat) { p.x < w && p.y < h }

  /** A cell as the key loop reads it: the signed cell converted to UINTN. */
  function Seen(m: seq<int>, w: nat, h: nat, x: nat, y: nat): (v: nat)
    requires Grid(m, w, h) && x < w && y < h
  {
    Unsigned(Cell(m, w, h, x, y))
  }

  function Unsigned(v: int): (u: nat) { if v < 0 then v % 0x1_0000_0000_0000_0000 else v }

  /** The player may stand there: floor, or a cell that boots something. */
  predicate Passable(v: nat, start: nat) { v == 0 || v >= start }

  /** The cell a key leads to, if it is on the map. */
  function Target(p: Player, w: nat, h: nat, key: Key): (t: Option<(nat, nat)>)
    requires Inside(p, w, h)
    ensures t.Some? ==> t.value.0 < w && t.value.1 < h
  {
    match key
    case Up => if p.y == 0 then None else Some((p.x, p.y - 1))
    case Down => if p.y == h - 1 then None else Some((p.x, p.y + 1))
    case Left => if p.x == 0 then None else Some((p.x - 1, p.y))
    case Right => if p.x == w - 1 then None else Some((p.x + 1, p.y))
    case _ => None
  }

  /** One turn of the key loop; a key that reads no cell leaves MapValue below bootable_start. */
  function Turn(m: seq<int>, w: nat, h: nat, start: nat, p: Player, key: Key): (q: Player)
    requires Grid(m, w, h) && Inside(p, w, h)
    ensures Inside(q, w, h)
  {
    if key == Esc then p.(outcome := Escaped)
    else match Target(p, w, h, key)
         case None => p
         case Some((x, y)) =>
           var v := Seen(m, w, h, x, y);
           if v != 0 && v < start then p
           else Player(x, y, if v >= start then Booted(v - start) else p.outcome)
  }

  /** The loop stops at the first turn that is not Walking. */
  function Walk(m: seq<int>, w: nat, h: nat, start: nat, p: Player, keys: seq<Key>): (q: Player)
    requires Grid(m, w, h) && Inside(p, w, h)
    ensures Inside(q, w, h)
    decreases |keys|
  {
    if keys == [] || !p.outcome.Walking? then p else Walk(m, w, h, start, Turn(m, w, h, start, p, keys[0]), keys[1..])
  }

  lemma WalkOne(m: seq<int>, w: nat, h: nat, start: nat, p: Player, keys: seq<Key>, k: nat)
    requires Grid(m, w, h) && Inside(p, w, h) && p.outcome.Walking? && k < |keys|
    ensures Walk(m, w, h, start, p, keys[k..]) == Walk(m, w, h, start, Turn(m, w, h, start, p, keys[k]), keys[k + 1..])
  {
    assert keys[k..][1..] == keys[k + 1..];
  }

  lemma WalkEnds(m: seq<int>, w: nat, h: nat, start: nat, keys: seq<Key>)
    requires Grid(m, w, h)
    ensures keys[0..] == keys && keys[|keys|..] == []
    ensures forall p, k | 0 <= k <= |keys| && Inside(p, w, h) && (k == |keys| || !p.outcome.Walking?) ::
              Walk(m, w, h, start, p, keys[k..]) == p
  {
  }

  /** The key loop of Game. */
  method KeyLoop(map_: array<int>, w: nat, h: nat, start: nat, x0: nat, y0: nat, keys: seq<Key>) returns (p: Player)
    requires Grid(map_[..], w, h) && x0 < w && y0 < h
    ensures p == Walk(map_[..], w, h, start, Player(x0, y0, Walking), keys)
  {
    hide Walk;
    WalkEnds(map_[..], w, h, start, keys);
    var curX: nat, curY: nat := x0, y0;
    var escaped, entry := false, None;
    var k := 0;
    while !escaped && k < |keys|
      invariant 0 <= k <= |keys| && curX < w && curY < h
      invariant entry.Some? ==> escaped
      invariant var p := Player(curX, curY, if entry.Some? then Booted(entry.value) else if escaped then Escaped
                                else Walking);
                Walk(map_[..], w, h, start, Player(x0, y0, Walking), keys) == Walk(map_[..], w, h, start, p, keys[k..])
    {
      ghost var before := Player(curX, curY, Walking);
      WalkOne(map_[..], w, h, start, before, keys, k);
      var newX, newY, value := curX, curY, None;
      match keys[k] {
        case Up => if curY != 0 { newY := curY - 1; }
        case Down => if curY != h - 1 { newY := curY + 1; }
        case Left => if curX != 0 { newX := curX - 1; }
        case Right => if curX != w - 1 { newX := curX + 1; }
        case Esc => escaped := true;
        case OtherKey =>
      }
      if newX != curX || newY != curY {
        InGrid(w, h, newX, newY);
        value := Some(Unsigned(map_[newY * w + newX]));
        if value.value == 0 || value.value >= start {
          curX, curY := newX, newY;
        }
      }
      if value.Some? && value.value >= start {
        entry := Some(value.value - start);
        escaped := true;
      }
      k := k + 1;
    }
    p := Player(curX, curY, if entry.Some? then Booted(entry.value) else if escaped then Escaped else Walking);
  }

  /** Wherever the keys lead, the player is on a passable cell of the map, and what gets booted is what
      the cell says. */
  lemma {:induction false} WalkSafe(m: seq<int>, w: nat, h: nat, start: nat, p: Player, keys: seq<Key>)
    requires Grid(m, w, h) && Inside(p, w, h) && Passable(Seen(m, w, h, p.x, p.y), start)
    requires p.outcome.Booted? ==> Seen(m, w, h, p.x, p.y) == start + p.outcome.entry
    ensures var q := Walk(m, w, h, start, p, keys);
            && Passable(Seen(m, w, h, q.x, q.y), start)
            && (q.outcome.Booted? ==> Seen(m, w, h, q.x, q.y) == start + q.outcome.entry)
    decreases |keys|
  {
    if keys != [] && p.outcome.Walking? {
      WalkSafe(m, w, h, start, Turn(m, w, h, start, p, keys[0]), keys[1..]);
    }
  }

  /** Up and down change the row, left and right the column, by one, if the cell there is passable; nothing else
      moves the player. */
  lemma KeyMoves(m: seq<int>, w: nat, h: nat, start: nat, p: Player, key: Key)
    requires Grid(m, w, h) && Inside(p, w, h) && p.outcome.Walking?
    ensures var q := Walk(m, w, h, start, p, [key]);
            && (key == Up && p.y > 0 && Passable(Seen(m, w, h, p.x, p.y - 1), start) ==> (q.x, q.y) == (p.x, p.y - 1))
            && (key == Down && p.y + 1 < h && Passable(Seen(m, w, h, p.x, p.y + 1), start) ==>
                  (q.x, q.y) == (p.x, p.y + 1))
            && (key == Left && p.x > 0 && Passable(Seen(m, w, h, p.x - 1, p.y), start) ==> (q.x, q.y) == (p.x - 1, p.y))
            && (key == Right && p.x + 1 < w && Passable(Seen(m, w, h, p.x + 1, p.y), start) ==>
                  (q.x, q.y) == (p.x + 1, p.y))
            && ((q.x, q.y) != (p.x, p.y) ==>
                  Passable(Seen(m, w, h, q.x, q.y), start) && Adjacent((p.x, p.y), (q.x, q.y)))
            && (q.outcome.Escaped? <==> key == Esc)
  {
    assert [key][1..] == [];
  }

  predicate Adjacent(a: (nat, nat), b: (nat, nat)) {
    (a.0 == b.0 && (a.1 == b.1 + 1 || b.1 == a.1 + 1)) || (a.1 == b.1 && (a.0 == b.0 + 1 || b.0 == a.0 + 1))
  }

  /** Cells next to each other, passable but for the first; only the last may boot something. */
  ghost predicate Route(m: seq<int>, w: nat, h: nat, start: nat, cells: seq<(nat, nat)>)
    requires Grid(m, w, h)
  {
    && cells != [] && (forall k | 0 <= k < |cells| :: cells[k].0 < w && cells[k].1 < h)
    && (forall k | 1 <= k < |cells| ::
          Adjacent(cells[k - 1], cells[k]) && Passable(Seen(m, w, h, cells[k].0, cells[k].1), start))
    && (forall k | 1 <= k < |cells| - 1 :: Seen(m, w, h, cells[k].0, cells[k].1) < start)
  }

  /** Where a route ends, and with what. */
  ghost function Arrived(m: seq<int>, w: nat, h: nat, start: nat, cells: seq<(nat, nat)>): (q: Player)
    requires Grid(m, w, h) && Route(m, w, h, start, cells)
  {
    var c := cells[|cells| - 1];
    var v := Seen(m, w, h, c.0, c.1);
    Player(c.0, c.1, if |cells| > 1 && v >= start then Booted(v - start) else Walking)
  }

  /** Every route can be walked. */
  lemma {:induction false} FollowRoute(m: seq<int>, w: nat, h: nat, start: nat, cells: seq<(nat, nat)>)
    returns (keys: seq<Key>)
    requires Grid(m, w, h) && Route(m, w, h, start, cells)
    ensures Walk(m, w, h, start, Player(cells[0].0, cells[0].1, Walking), keys) == Arrived(m, w, h, start, cells)
    decreases |cells|
  {
    hide Seen;
    var a := cells[0];
    if |cells| == 1 {
      keys := [];
    } else {
      var b := cells[1];
      assert Adjacent(cells[0], cells[1]) && cells[1..][0] == b;
      var key := if a.1 == b.1 + 1 then Up else if b.1 == a.1 + 1 then Down else if a.0 == b.0 + 1 then Left else Right;
      var q := Turn(m, w, h, start, Player(a.0, a.1, Walking), key);
      assert (q.x, q.y) == b;
      if |cells| == 2 {
        keys := [key];
        assert keys[1..] == [];
      } else {
        RouteTail(m, w, h, start, cells);
        var rest := FollowRoute(m, w, h, start, cells[1..]);
        keys := [key] + rest;
        assert keys[1..] == rest;
      }
    }
  }

  lemma RouteTail(m: seq<int>, w: nat, h: nat, start: nat, cells: seq<(nat, nat)>)
    requires Grid(m, w, h) && Route(m, w, h, start, cells) && |cells| > 2
    ensures Route(m, w, h, start, cells[1..])
    ensures Arrived(m, w, h, start, cells[1..]) == Arrived(m, w, h, start, cells)
  {
    hide Seen, Passable, Adjacent;
    var t := cells[1..];
    forall k | 1 <= k < |t| ensures Adjacent(t[k - 1], t[k]) && Passable(Seen(m, w, h, t[k].0, t[k].1), start) {
      assert t[k - 1] == cells[k] && t[k] == cells[k + 1];
    }
  }

  /** Every walk is a route. */
  lemma {:induction false} WalkIsRoute(m: seq<int>, w: nat, h: nat, start: nat, p: Player, keys: seq<Key>)
    returns (cells: seq<(nat, nat)>)
    requires Grid(m, w, h) && Inside(p, w, h) && p.outcome.Walking?
    ensures Route(m, w, h, start, cells) && cells[0] == (p.x, p.y)
    ensures var q := Walk(m, w, h, start, p, keys);
            q == Arrived(m, w, h, start, cells).(outcome := q.outcome) && (!q.outcome.Escaped? ==>
                                                                             q == Arrived(m, w, h, start, cells))
    decreases |keys|
  {
    hide Seen;
    if keys == [] {
      cells := [(p.x, p.y)];
    } else {
      var q := Turn(m, w, h, start, p, keys[0]);
      if q == p {
        cells := WalkIsRoute(m, w, h, start, p, keys[1..]);
      } else if q.outcome.Walking? {
        var rest := WalkIsRoute(m, w, h, start, q, keys[1..]);
        cells := [(p.x, p.y)] + rest;
        RouteFront(m, w, h, start, (p.x, p.y), rest);
      } else if q.outcome.Booted? {
        cells := [(p.x, p.y), (q.x, q.y)];
      } else {
        cells := [(p.x, p.y)];
      }
    }
  }

  lemma RouteFront(m: seq<int>, w: nat, h: nat, start: nat, a: (nat, nat), cells: seq<(nat, nat)>)
    requires Grid(m, w, h) && Route(m, w, h, start, cells) && a.0 < w && a.1 < h && Adjacent(a, cells[0])
    requires var c := cells[0]; Passable(Seen(m, w, h, c.0, c.1), start) && Seen(m, w, h, c.0, c.1) < start
    ensures Route(m, w, h, start, [a] + cells)
    ensures Arrived(m, w, h, start, [a] + cells) == Arrived(m, w, h, start, cells)
  {
    hide Seen, Passable, Adjacent;
    var t := [a] + cells;
    forall k | 1 <= k < |t| ensures Adjacent(t[k - 1], t[k]) && Passable(Seen(m, w, h, t[k].0, t[k].1), start) {
      if k > 1 { assert t[k - 1] == cells[k - 2] && t[k] == cells[k - 1]; }
    }
  }

  /** An entry can be booted from where the player is exactly if some route over passable cells leads to a cell
      of that entry. */
  lemma CanBootIff(m: seq<int>, w: nat, h: nat, start: nat, x: nat, y: nat, entry: nat)
    requires Grid(m, w, h) && x < w && y < h
    ensures (exists keys :: Walk(m, w, h, start, Player(x, y, Walking), keys).outcome == Booted(entry)) <==>
            exists cells :: Route(m, w, h, start, cells) && cells[0] == (x, y)
                            && Arrived(m, w, h, start, cells).outcome == Booted(entry)
  {
    hide Walk, Seen;
    if keys :| Walk(m, w, h, start, Player(x, y, Walking), keys).outcome == Booted(entry) {
      var cells := WalkIsRoute(m, w, h, start, Player(x, y, Walking), keys);
    }
    if cells :| Route(m, w, h, start, cells) && cells[0] == (x, y)
                && Arrived(m, w, h, start, cells).outcome == Booted(entry) {
      var keys := FollowRoute(m, w, h, start, cells);
    }
  }

  /** Game: on a map of texture indices with at least ESCAPES escape cells, for every rand() and every
      sequence of keys, an entry that is booted is one of the boot entries, and the player stands on the
      former escape cell where that entry was put. */
  lemma BootsWhatWasPlaced(m: seq<int>, w: nat, h: nat, start: nat, rands: seq<nat>, n: nat, x0: nat, y0: nat,
                           keys: seq<Key>) returns (at: seq<nat>)
    requires Grid(m, w, h) && n <= |rands| && n <= ESCAPES && Count(m, w, h, start, 0, 0) >= ESCAPES
    requires forall c | 0 <= c < |m| :: 0 <= m[c] < start
    requires x0 < w && y0 < h && Cell(m, w, h, x0, y0) == 0
    ensures |at| == n && Placed(m, PlaceAll(m, w, h, start, rands, n).0, start, at)
    ensures var q := Walk(PlaceAll(m, w, h, start, rands, n).0, w, h, start, Player(x0, y0, Walking), keys);
            q.outcome.Booted? ==> q.outcome.entry < n && q.y * w + q.x == at[q.outcome.entry]
  {
    at := AllPlaced(m, w, h, start, rands, n);
    var m' := PlaceAll(m, w, h, start, rands, n).0;
    InGrid(w, h, x0, y0);
    assert Cell(m', w, h, x0, y0) == 0;
    WalkSafe(m', w, h, start, Player(x0, y0, Walking), keys);
    var q := Walk(m', w, h, start, Player(x0, y0, Walking), keys);
    InGrid(w, h, q.x, q.y);
    if q.outcome.Booted? {
      var c := q.y * w + q.x;
      assert m'[c] >= 0 && m'[c] == start + q.outcome.entry;
      assert c in at;
    }
  }
}
