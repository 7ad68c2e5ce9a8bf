/**
 malloc, free and morecore on the headers of the arena, proved against the
 blocks and the free list of KrMalloc.
 */
module KrArena {
  import opened Seqs
  import opened KrMalloc

  const WORD: nat := 0x1_0000_0000
  const NALLOC: nat := 0x10000
  /** Bytes of a header, the unit of addresses and sizes. */
  const HEADER: nat := 8

  // ------------------------------------------------------------- free's search

  /** The loop of free stops at member `k`. */
  predicate Stops(list: seq<nat>, k: nat, bp: nat)
    requires k < |list|
  {
    var p, q := list[k], list[Succ(|list|, k)];
    (bp > p && bp < q) || (p >= q && (bp > p || bp < q))
  }

  /** Steps the search takes from member `k` to member `f`. */
  function Dist(n: nat, k: nat, f: nat): nat
    requires k < n && f < n
  {
    if k <= f then f - k else n - k + f
  }

  /** One member at least stops the search. */
  lemma SomeStop(list: seq<nat>, size: map<nat, nat>, bp: nat) returns (g: nat)
    requires list != [] && Ordered(list, size) && bp !in list
    ensures g < |list| && Stops(list, g, bp)
  {
    var n := |list|;
    if bp < list[0] {
      g := n - 1;
      assert n > 1 ==> list[0] < list[n - 1];
    } else {
      g := 0;
      while g + 1 < n && list[g + 1] < bp
        invariant g < n && list[g] < bp
      {
        g := g + 1;
      }
      if g + 1 < n {
        assert list[g + 1] != bp;
      } else {
        assert n > 1 ==> list[0] < list[n - 1];
      }
    }
  }

  function Place(list: seq<nat>, k: nat, bp: nat): (i: nat)
    requires k < |list|
    ensures i <= |list|
  {
    if k + 1 < |list| then k + 1 else if bp > list[k] then |list| else 0
  }

  /** A block whose header is lower ends at or below the other's header. */
  lemma MemberClear(list: seq<nat>, tiles: seq<Tile>, h: Headers, base: nat, lo: nat, hi: nat, t: nat, a: nat)
    requires Heap(list, tiles, h.ptr, h.size, base, lo, hi) && Apart(base, lo, hi) && t < |tiles| &&
      !tiles[t].free && a in list
    ensures a in h.size && a != tiles[t].addr
    ensures a < tiles[t].addr ==> a + h.size[a] <= tiles[t].addr
    ensures a > tiles[t].addr ==> tiles[t].addr + tiles[t].len <= a
  {
    hide Ring;
    TilesWithin(tiles, lo, hi, t);
    if a != base {
      var j := MemberIs(list, tiles, base, a);
      BlocksDisjoint(tiles, lo, hi, tiles[t], tiles[j]);
    }
  }

  /** Where the search stops is where the block belongs. */
  lemma StopFits(list: seq<nat>, tiles: seq<Tile>, h: Headers, base: nat, lo: nat, hi: nat, t: nat, k: nat)
    requires Heap(list, tiles, h.ptr, h.size, base, lo, hi) && Apart(base, lo, hi) && t < |tiles| && !tiles[t].free
    requires k < |list| && Stops(list, k, tiles[t].addr)
    ensures var i := Place(list, k, tiles[t].addr);
      Freeing(list, tiles, h, base, lo, hi, t, i) && Pred(list, i) == list[k]
  {
    var bp := tiles[t].addr;
    var i := Place(list, k, bp);
    forall x | 0 <= x < |list|
      ensures list[x] in h.size
      ensures x < i ==> list[x] + h.size[list[x]] <= bp && list[x] < bp
      ensures x >= i ==> bp + h.size[bp] <= list[x]
    {
      MemberClear(list, tiles, h, base, lo, hi, t, list[x]);
      assert Ordered(list, h.size);
      assert x < k ==> list[x] < list[k];
      assert k < x ==> list[k] < list[x];
      assert k + 1 < x ==> list[k + 1] < list[x];
      assert 0 < x ==> list[0] < list[x];
      assert 0 < k ==> list[0] < list[k];
    }
  }

  // --------------------------------------------------------- blocks in malloc

  /** The blocks after block `j` was taken whole. */
  function TakeWhole(tiles: seq<Tile>, j: nat): seq<Tile>
    requires j < |tiles|
  {
    tiles[..j] + [Tile(tiles[j].addr, tiles[j].len, false)] + tiles[j + 1..]
  }

  /** The blocks after the last `n` units of block `j` were taken. */
  function TakeTail(tiles: seq<Tile>, j: nat, n: nat): seq<Tile>
    requires j < |tiles| && tiles[j].len > n
  {
    var b := tiles[j];
    tiles[..j] + [Tile(b.addr, b.len - n, true), Tile(b.addr + b.len - n, n, false)] + tiles[j + 1..]
  }

  ghost function Live(tiles: seq<Tile>): set<Tile> {
    set b | b in tiles && !b.free
  }

  ghost predicate LiveAt(tiles: seq<Tile>, a: nat) {
    exists b :: b in Live(tiles) && b.addr == a
  }

  /** Some free block has at least `n` units. */
  ghost predicate Available(tiles: seq<Tile>, n: nat) {
    exists b :: b in tiles && b.free && b.len >= n
  }

  predicate Disjoint(a: Tile, b: Tile) {
    a.addr + a.len <= b.addr || b.addr + b.len <= a.addr
  }

  /** One block is replaced by several of the same extent. */
  lemma SpliceOne(tiles: seq<Tile>, lo: nat, hi: nat, j: nat, mid: seq<Tile>)
    requires Tiled(tiles, lo, hi) && j < |tiles| && Tiled(mid, tiles[j].addr, tiles[j].addr + tiles[j].len)
    ensures Tiled(tiles[..j] + mid + tiles[j + 1..], lo, hi)
    ensures forall b :: b in tiles[..j] + mid + tiles[j + 1..] <==> b in mid || (b in tiles && b != tiles[j])
  {
    TiledNoDup(tiles, lo, hi);
    hide Tiled, NoDup;
    SpliceTiled(tiles, lo, hi, j, j + 1, mid);
    SpliceMembers(tiles, j, j + 1, mid);
    assert tiles[j..j + 1] == [tiles[j]];
  }

  lemma SizedFrom(tiles: seq<Tile>, size: map<nat, nat>)
    requires forall b :: b in tiles ==> b.addr in size && size[b.addr] == b.len
    ensures Sized(tiles, size)
  {
    assert forall i :: 0 <= i < |tiles| ==> tiles[i] in tiles;
  }

  lemma SizedAt(tiles: seq<Tile>, size: map<nat, nat>, b: Tile)
    requires Sized(tiles, size) && b in tiles
    ensures b.addr in size && size[b.addr] == b.len
  {
  }

  /** An exact fit leaves the list; the block becomes allocated. */
  lemma WholeHeap(list: seq<nat>, tiles: seq<Tile>, h: Headers, base: nat, lo: nat, hi: nat, j: nat, k: nat)
    requires Heap(list, tiles, h.ptr, h.size, base, lo, hi) && Apart(base, lo, hi)
    requires j < |tiles| && tiles[j].free && k < |list| && list[k] == tiles[j].addr
    ensures |list| >= 2 && list[k] in h.ptr
    ensures Pred(list, k) in list[..k] + list[k + 1..]
    ensures Heap(list[..k] + list[k + 1..], TakeWhole(tiles, j), h.ptr[Pred(list, k) := h.ptr[list[k]]], h.size,
      base, lo, hi)
    ensures Live(TakeWhole(tiles, j)) == Live(tiles) + {Tile(tiles[j].addr, tiles[j].len, false)}
  {
    var b, l := tiles[j], list[..k] + list[k + 1..];
    var c := Tile(b.addr, b.len, false);
    var r := TakeWhole(tiles, j);
    OrderedNoDup(list, h.size);
    NotAlone(list, tiles, base, lo, hi, j, k);
    assert Points(list, h.ptr, k);
    RemoveCircle(list, h.ptr, k);
    RemoveMembers(list, k);
    RemoveOrdered(list, h.size, k);
    PredStays(list, k);
    assert Tiled([c], b.addr, b.addr + b.len);
    hide Ordered, Circle, Tiled, NoDup, FreeAt;
    SpliceOne(tiles, lo, hi, j, [c]);
    SizedTake(tiles, h.size, r, b, c);
    forall a
      ensures a in l <==> a == base || FreeAt(r, a)
    {
      FreeWhole(tiles, lo, hi, r, b, c, a);
    }
  }

  /** Beside a free block the list has `base`. */
  lemma NotAlone(list: seq<nat>, tiles: seq<Tile>, base: nat, lo: nat, hi: nat, j: nat, k: nat)
    requires Tiled(tiles, lo, hi) && Lists(list, tiles, base) && Apart(base, lo, hi)
    requires j < |tiles| && k < |list| && list[k] == tiles[j].addr
    ensures |list| >= 2 && list[k] != base
  {
    TilesWithin(tiles, lo, hi, j);
    assert base in list;
    var x :| 0 <= x < |list| && list[x] == base;
  }

  lemma SizedTake(tiles: seq<Tile>, size: map<nat, nat>, r: seq<Tile>, b: Tile, c: Tile)
    requires Sized(tiles, size) && b in tiles && c == Tile(b.addr, b.len, false)
    requires forall d :: d in r <==> d == c || (d in tiles && d != b)
    ensures Sized(r, size)
  {
    forall d | d in r
      ensures d.addr in size && size[d.addr] == d.len
    {
      SizedAt(tiles, size, if d == c then b else d);
    }
    SizedFrom(r, size);
  }

  lemma FreeWhole(tiles: seq<Tile>, lo: nat, hi: nat, r: seq<Tile>, b: Tile, c: Tile, a: nat)
    requires Tiled(tiles, lo, hi) && b in tiles && b.free && c == Tile(b.addr, b.len, false)
    requires forall d :: d in r <==> d == c || (d in tiles && d != b)
    ensures FreeAt(r, a) <==> FreeAt(tiles, a) && a != b.addr
  {
    if FreeAt(r, a) {
      var d :| d in r && d.free && d.addr == a;
      if a == b.addr { SameHeader(tiles, lo, hi, d, b); }
    }
    if FreeAt(tiles, a) && a != b.addr {
      var d :| d in tiles && d.free && d.addr == a;
      assert d in r;
    }
  }

  lemma RemoveMembers(list: seq<nat>, k: nat)
    requires NoDup(list) && k < |list|
    ensures forall a :: a in list[..k] + list[k + 1..] <==> a in list && a != list[k]
  {
    assert list == list[..k] + [list[k]] + list[k + 1..];
    assert forall x :: 0 <= x < k ==> list[x] != list[k];
    assert forall x :: k < x < |list| ==> list[k] != list[x];
  }

  lemma PredStays(list: seq<nat>, k: nat)
    requires NoDup(list) && k < |list| && |list| >= 2
    ensures Pred(list, k) in list[..k] + list[k + 1..]
  {
    var l := list[..k] + list[k + 1..];
    assert Pred(list, k) == l[if k > 0 then k - 1 else |l| - 1];
  }

  lemma RemoveOrdered(list: seq<nat>, size: map<nat, nat>, k: nat)
    requires Ordered(list, size) && k < |list|
    ensures Ordered(list[..k] + list[k + 1..], size)
  {
    var l := list[..k] + list[k + 1..];
    forall x, y | 0 <= x < y < |l|
      ensures l[x] + size[l[x]] < l[y]
    {
      assert l[x] == list[if x < k then x else x + 1] && l[y] == list[if y < k then y else y + 1];
    }
  }

  /** A larger block gives its tail; the list keeps its members. */
  lemma TailHeap(list: seq<nat>, tiles: seq<Tile>, h: Headers, base: nat, lo: nat, hi: nat, j: nat, n: nat)
    requires Heap(list, tiles, h.ptr, h.size, base, lo, hi) && Apart(base, lo, hi)
    requires j < |tiles| && tiles[j].free && 1 <= n < tiles[j].len
    ensures var b := tiles[j];
      && Heap(list, TakeTail(tiles, j, n), h.ptr, h.size[b.addr := b.len - n][b.addr + (b.len - n) := n], base, lo, hi)
      && Live(TakeTail(tiles, j, n)) == Live(tiles) + {Tile(b.addr + b.len - n, n, false)}
  {
    var b := tiles[j];
    var c, d := Tile(b.addr, b.len - n, true), Tile(b.addr + b.len - n, n, false);
    var r := TakeTail(tiles, j, n);
    TilesWithin(tiles, lo, hi, j);
    assert Tiled([c, d], b.addr, b.addr + b.len);
    hide Ordered, Circle, Tiled, Sized, FreeAt;
    SpliceOne(tiles, lo, hi, j, [c, d]);
    TailFrame(tiles, h.size, lo, hi, j, n);
    ShrinkOrdered(list, tiles, h, base, lo, hi, j, n);
    forall a
      ensures a in list <==> a == base || FreeAt(r, a)
    {
      FreeTail(tiles, lo, hi, r, b, c, d, a);
    }
    TailLive(tiles, r, b, c, d);
  }

  lemma TailLive(tiles: seq<Tile>, r: seq<Tile>, b: Tile, c: Tile, d: Tile)
    requires b in tiles && b.free && c.free && !d.free
    requires forall e :: e in r <==> e in [c, d] || (e in tiles && e != b)
    ensures Live(r) == Live(tiles) + {d}
  {
  }

  lemma FreeTail(tiles: seq<Tile>, lo: nat, hi: nat, r: seq<Tile>, b: Tile, c: Tile, d: Tile, a: nat)
    requires Tiled(tiles, lo, hi) && b in tiles && b.free && c.free && c.addr == b.addr && !d.free
    requires forall e :: e in r <==> e in [c, d] || (e in tiles && e != b)
    ensures FreeAt(r, a) <==> FreeAt(tiles, a)
  {
    if FreeAt(r, a) {
      var e :| e in r && e.free && e.addr == a;
      assert (if e == c then b else e) in tiles;
    }
    if FreeAt(tiles, a) {
      var e :| e in tiles && e.free && e.addr == a;
      assert (if e == b then c else e) in r;
    }
  }

  lemma TailFrame(tiles: seq<Tile>, size: map<nat, nat>, lo: nat, hi: nat, j: nat, n: nat)
    requires Tiled(tiles, lo, hi) && Sized(tiles, size) && j < |tiles| && tiles[j].free && 1 <= n < tiles[j].len
    ensures var b := tiles[j]; Sized(TakeTail(tiles, j, n), size[b.addr := b.len - n][b.addr + (b.len - n) := n])
  {
    var b := tiles[j];
    var r, size' := TakeTail(tiles, j, n), size[b.addr := b.len - n][b.addr + (b.len - n) := n];
    forall x | 0 <= x < |r|
      ensures r[x].addr in size' && size'[r[x].addr] == r[x].len
    {
      if x < j {
        assert tiles[x].addr + tiles[x].len <= b.addr && tiles[x].len >= 1;
      } else if x > j + 1 {
        assert r[x] == tiles[x - 1] && b.addr + b.len <= tiles[x - 1].addr;
      }
    }
  }

  lemma ShrinkOrdered(list: seq<nat>, tiles: seq<Tile>, h: Headers, base: nat, lo: nat, hi: nat, j: nat, n: nat)
    requires Heap(list, tiles, h.ptr, h.size, base, lo, hi) && Apart(base, lo, hi)
    requires j < |tiles| && tiles[j].free && 1 <= n < tiles[j].len
    ensures var b := tiles[j]; var size := h.size[b.addr := b.len - n][b.addr + (b.len - n) := n];
      Ordered(list, size) && base in size && size[base] == 0
  {
    var b := tiles[j];
    var mid := b.addr + (b.len - n);
    var size := h.size[b.addr := b.len - n][mid := n];
    TilesWithin(tiles, lo, hi, j);
    FreeIsListed(list, tiles, base, b);
    SizedAt(tiles, h.size, b);
    assert mid !in list by {
      if mid in list { RingGap(list, h.ptr, h.size, b.addr, mid); assert false; }
    }
    forall x, y | 0 <= x < y < |list|
      ensures list[x] in size && list[x] + size[list[x]] < list[y]
    {
      assert list[x] in list;
      assert list[x] + h.size[list[x]] < list[y];
    }
    forall x | 0 <= x < |list|
      ensures list[x] in size
    {
      assert list[x] in list;
    }
  }

  /** morecore appends an allocated block at the end of the arena. */
  lemma GrowHeap(list: seq<nat>, tiles: seq<Tile>, h: Headers, base: nat, lo: nat, hi: nat, n: nat)
    requires Heap(list, tiles, h.ptr, h.size, base, lo, hi) && Apart(base, lo, hi + n) && n >= 1 && lo <= hi
    ensures Heap(list, tiles + [Tile(hi, n, false)], h.ptr, h.size[hi := n], base, lo, hi + n)
    ensures Live(tiles + [Tile(hi, n, false)]) == Live(tiles) + {Tile(hi, n, false)}
    ensures Tile(hi, n, false) !in tiles
  {
    var b := Tile(hi, n, false);
    var r := tiles + [b];
    assert Tiled([b], hi, hi + n);
    TiledJoin(tiles, [b], lo, hi, hi + n);
    GrowSized(tiles, h.size, lo, hi, n);
    hide Tiled, Sized, Circle, Ordered;
    assert forall d :: d in r <==> d in tiles || d == b;
    forall a
      ensures FreeAt(r, a) <==> FreeAt(tiles, a)
    {
      FreeGrown(tiles, b, a);
    }
    assert hi !in list by {
      if hi in list {
        var j := MemberIs(list, tiles, base, hi);
        assert false;
      }
    }
    OrderedFrame(list, h.size, hi, n);
  }

  lemma FreeGrown(tiles: seq<Tile>, b: Tile, a: nat)
    requires !b.free
    ensures FreeAt(tiles + [b], a) <==> FreeAt(tiles, a)
  {
    var r := tiles + [b];
    assert forall d :: d in r <==> d in tiles || d == b;
    if FreeAt(r, a) { var d :| d in r && d.free && d.addr == a; assert d in tiles; }
    if FreeAt(tiles, a) { var d :| d in tiles && d.free && d.addr == a; assert d in r; }
  }

  lemma GrowSized(tiles: seq<Tile>, size: map<nat, nat>, lo: nat, hi: nat, n: nat)
    requires Tiled(tiles, lo, hi) && Sized(tiles, size)
    ensures Sized(tiles + [Tile(hi, n, false)], size[hi := n])
    ensures forall b :: b in tiles ==> b.addr < hi
  {
    forall i | 0 <= i < |tiles|
      ensures tiles[i].addr < hi
    {
      TilesWithin(tiles, lo, hi, i);
    }
  }

  // ------------------------------------------------------------ sizes in bytes

  /** Units of a request, computed in 32 bits: the payload rounded up, and a header. */
  function Nunits(nbytes: nat): (n: nat)
    ensures 1 <= n <= WORD / HEADER
  {
    (nbytes + HEADER - 1) % WORD / HEADER + 1
  }

  /** The payload holds the request exactly when the rounding does not wrap. */
  lemma NunitsExact(nbytes: nat)
    requires nbytes < WORD
    ensures HEADER * (Nunits(nbytes) - 1) >= nbytes <==> nbytes <= WORD - HEADER
  {
    var s := nbytes + HEADER - 1;
    if nbytes <= WORD - HEADER {
      assert s % WORD == s;
      assert HEADER * (s / HEADER) + s % HEADER == s;
    } else {
      assert s % WORD == s - WORD;
    }
  }

  /** Bytes morecore asks for, in 32 bits. */
  function Rounded(nu: nat): nat {
    (nu * HEADER % WORD + NALLOC - 1) % WORD / NALLOC * NALLOC
  }

  /** The units morecore adds, or none when the test against the limit fails. */
  function Grant(bss: nat, top: nat, nu: nat): Option<nat> {
    if (bss + Rounded(nu)) % WORD > top then None else Some(Rounded(nu) / HEADER)
  }

  /** The request in bytes, rounded up to whole portions of NALLOC. */
  function Whole(nu: nat): nat {
    (nu * HEADER + NALLOC - 1) / NALLOC * NALLOC
  }

  /** Neither the size nor the new end of the arena wraps around. */
  predicate NoWrap(bss: nat, nu: nat) {
    nu * HEADER <= WORD - NALLOC && bss + Whole(nu) < WORD
  }

  /** morecore refuses, or stays below the limit and adds enough, exactly when nothing wraps. */
  lemma GrantExact(bss: nat, top: nat, nu: nat)
    requires bss <= top < WORD && 1 <= nu <= WORD / HEADER
    ensures var g := Grant(bss, top, nu);
      (g.None? || (g.value >= nu && bss + HEADER * g.value <= top)) <==> NoWrap(bss, nu)
    ensures NoWrap(bss, nu) ==> (Grant(bss, top, nu).None? <==> bss + Whole(nu) > top)
    ensures NoWrap(bss, nu) && Grant(bss, top, nu).Some? ==> Grant(bss, top, nu).value * HEADER == Whole(nu)
    ensures Rounded(nu) % NALLOC == 0
  {
    RoundedIs(nu);
    hide Rounded;
    var nb := Rounded(nu);
    if nu * HEADER <= WORD - NALLOC && bss + nb >= WORD {
      assert (bss + nb) % WORD == bss + nb - WORD;
    } else {
      assert (bss + nb) % WORD == bss + nb;
    }
  }

  lemma Multiple(x: nat)
    ensures x * NALLOC % NALLOC == 0 && x * NALLOC % HEADER == 0
  {
    assert x * NALLOC == (x * 8192) * HEADER;
  }

  lemma RoundUp(w: nat)
    ensures w <= (w + NALLOC - 1) / NALLOC * NALLOC <= w + NALLOC - 1
  {
  }

  lemma Wrapped(w: nat)
    requires w <= WORD
    ensures (w % WORD + NALLOC - 1) % WORD / NALLOC == if w <= WORD - NALLOC then (w + NALLOC - 1) / NALLOC else 0
  {
    if w <= WORD - NALLOC {
    } else if w < WORD {
      assert (w + NALLOC - 1) % WORD == w + NALLOC - 1 - WORD;
    }
  }

  /** The rounding is exact unless the product or the sum wraps; then nothing is asked for. */
  lemma RoundedIs(nu: nat)
    requires 1 <= nu <= WORD / HEADER
    ensures Rounded(nu) == if nu * HEADER <= WORD - NALLOC then Whole(nu) else 0
    ensures Rounded(nu) % NALLOC == 0 && Rounded(nu) % HEADER == 0 && Rounded(nu) < WORD && Whole(nu) >= nu * HEADER
  {
    Wrapped(nu * HEADER);
    RoundUp(nu * HEADER);
    Multiple((nu * HEADER % WORD + NALLOC - 1) % WORD / NALLOC);
  }

  /** What morecore relies on, for an arena that ends at unit `bss`. */
  lemma GrantUnits(bss: nat, top: nat, nu: nat)
    requires bss * HEADER <= top < WORD && 1 <= nu <= WORD / HEADER && NoWrap(bss * HEADER, nu)
    ensures var g := Grant(bss * HEADER, top, nu);
      && (g.None? <==> bss * HEADER + Whole(nu) > top)
      && (g.Some? ==> nu <= g.value && (bss + g.value) * HEADER <= top && bss + g.value <= top / HEADER)
      && (g.Some? ==> (bss + g.value) * HEADER == bss * HEADER + Whole(nu))
  {
    GrantExact(bss * HEADER, top, nu);
    hide Grant, Whole, NoWrap;
  }

  /**
   The largest request is given a header and no payload; one that does not wrap there can make
   morecore grant nothing.
   */
  lemma HugeRequests(bss: nat, top: nat)
    requires bss <= top < WORD
    ensures Nunits(WORD - 1) == 1
    ensures Nunits(WORD - HEADER) == WORD / HEADER && Grant(bss, top, WORD / HEADER) == Some(0)
  {
    RoundedIs(WORD / HEADER);
    assert (bss + 0) % WORD == bss;
  }

  // ------------------------------------------------------------ malloc's search

  /** Every member large enough is still ahead of the search that ends at member `f`. */
  ghost predicate Ahead(list: seq<nat>, size: map<nat, nat>, n: nat, k: nat, f: nat) {
    && k < |list| && f < |list|
    && forall x :: 0 <= x < |list| && list[x] in size && size[list[x]] >= n ==> Dist(|list|, x, f) <= Dist(|list|, k, f)
  }

  /** The search stands at member `k`, with its predecessor, and ends at `freep`, member `f`. */
  predicate At(list: seq<nat>, ptr: map<nat, nat>, size: map<nat, nat>, freep: nat, f: nat, prevp: nat,
      p: nat, k: nat) {
    && k < |list| && f < |list| && list[f] == freep
    && list[k] == p && prevp == Pred(list, k) && p in ptr && p in size
    && (p == freep <==> k == f)
  }

  lemma AtMember(list: seq<nat>, tiles: seq<Tile>, h: Headers, base: nat, lo: nat, hi: nat, f: nat, k: nat)
    requires Heap(list, tiles, h.ptr, h.size, base, lo, hi) && k < |list| && f < |list|
    ensures At(list, h.ptr, h.size, list[f], f, Pred(list, k), list[k], k)
    ensures h.ptr[list[k]] == list[Succ(|list|, k)] && Pred(list, Succ(|list|, k)) == list[k]
  {
    assert Points(list, h.ptr, k);
    OrderedNoDup(list, h.size);
  }

  /** The search begins behind `freep`. */
  lemma Start(list: seq<nat>, tiles: seq<Tile>, h: Headers, base: nat, lo: nat, hi: nat, freep: nat, n: nat)
      returns (f: nat, k: nat)
    requires Heap(list, tiles, h.ptr, h.size, base, lo, hi) && freep in list
    ensures freep in h.ptr && At(list, h.ptr, h.size, freep, f, freep, h.ptr[freep], k)
    ensures Ahead(list, h.size, n, k, f)
  {
    f :| 0 <= f < |list| && list[f] == freep;
    k := Succ(|list|, f);
    AtMember(list, tiles, h, base, lo, hi, f, f);
    AtMember(list, tiles, h, base, lo, hi, f, k);
  }

  /** A member that is too small is passed, and the end comes one step closer. */
  lemma Advance(list: seq<nat>, tiles: seq<Tile>, h: Headers, base: nat, lo: nat, hi: nat, n: nat, k: nat, f: nat)
    requires Heap(list, tiles, h.ptr, h.size, base, lo, hi) && Ahead(list, h.size, n, k, f) && k != f
    requires list[k] in h.size && h.size[list[k]] < n
    ensures var k' := Succ(|list|, k);
      && Ahead(list, h.size, n, k', f) && Dist(|list|, k', f) < Dist(|list|, k, f)
      && list[k] in h.ptr && At(list, h.ptr, h.size, list[f], f, list[k], h.ptr[list[k]], k')
  {
    AtMember(list, tiles, h, base, lo, hi, f, k);
    AtMember(list, tiles, h, base, lo, hi, f, Succ(|list|, k));
  }

  /** After a whole round of members that are too small no free block is large enough. */
  lemma NoneAhead(list: seq<nat>, tiles: seq<Tile>, h: Headers, base: nat, lo: nat, hi: nat, n: nat, k: nat, f: nat)
    requires Heap(list, tiles, h.ptr, h.size, base, lo, hi) && Ahead(list, h.size, n, k, f) && k == f
    requires list[k] in h.size && h.size[list[k]] < n
    ensures !Available(tiles, n)
  {
    forall b | b in tiles && b.free
      ensures b.len < n
    {
      FreeIsListed(list, tiles, base, b);
      SizedAt(tiles, h.size, b);
      var x :| 0 <= x < |list| && list[x] == b.addr;
    }
  }

  lemma LastAhead(list: seq<nat>, size: map<nat, nat>, k: nat, f: nat)
    requires Ahead(list, size, 0, k, f) && list[|list| - 1] in size
    ensures Dist(|list|, |list| - 1, f) <= Dist(|list|, k, f)
  {
  }

  lemma FitAvailable(list: seq<nat>, tiles: seq<Tile>, h: Headers, base: nat, lo: nat, hi: nat, n: nat, k: nat)
    requires Heap(list, tiles, h.ptr, h.size, base, lo, hi) && n >= 1 && k < |list| && list[k] in h.size &&
      h.size[list[k]] >= n
    ensures Available(tiles, n)
  {
    var j := MemberTile(list, tiles, h, base, lo, hi, k);
    assert tiles[j] in tiles;
  }

  // ----------------------------------------------------- the allocator's checker

  /** What the checker rejects at member `k`. */
  predicate Faulty(list: seq<nat>, size: map<nat, nat>, base: nat, k: nat)
    requires k < |list| && list[k] in size
  {
    var p, q := list[k], list[Succ(|list|, k)];
    p != base && (p > q || p + size[p] > q || size[p] == 0)
  }

  /** The only member ever rejected is the highest free block, when `base` lies below it. */
  lemma FaultyExact(list: seq<nat>, tiles: seq<Tile>, h: Headers, base: nat, lo: nat, hi: nat, k: nat)
    requires Heap(list, tiles, h.ptr, h.size, base, lo, hi) && k < |list|
    ensures list[k] in h.size && (Faulty(list, h.size, base, k) <==> k == |list| - 1 && list[k] != base)
  {
    var n := |list|;
    assert Ordered(list, h.size);
    if list[k] != base {
      var j := MemberIs(list, tiles, base, list[k]);
      SizedAt(tiles, h.size, tiles[j]);
      assert k + 1 < n ==> list[k] + h.size[list[k]] < list[k + 1];
      assert k > 0 ==> list[0] < list[k];
    }
  }

  lemma StartAt(list: seq<nat>, h: Headers, freep: nat, f: nat, k: nat)
    requires freep in h.ptr && At(list, h.ptr, h.size, freep, f, freep, h.ptr[freep], k)
    ensures k < |list| && f < |list| && list[k] == h.ptr[freep] && list[f] == freep
  {
  }

  /** One member examined: what the checker reads there, and how far it still has to go. */
  lemma CheckStep(list: seq<nat>, tiles: seq<Tile>, h: Headers, base: nat, lo: nat, hi: nat, f: nat, k: nat)
    requires Heap(list, tiles, h.ptr, h.size, base, lo, hi) && k < |list| && f < |list|
    ensures list[k] in h.ptr && list[k] in h.size && h.ptr[list[k]] == list[Succ(|list|, k)]
    ensures var p, q := list[k], h.ptr[list[k]];
      p != base && (p > q || p + h.size[p] > q || h.size[p] == 0) <==> k == |list| - 1 && p != base
    ensures list[k] == list[f] <==> k == f
    ensures k != f ==> Succ(|list|, k) < |list| && Dist(|list|, Succ(|list|, k), f) + 1 == Dist(|list|, k, f)
    ensures var last := |list| - 1; Dist(|list|, last, f) <= Dist(|list|, k, f) ==>
      if k == f then last == k else k == last || Dist(|list|, last, f) <= Dist(|list|, Succ(|list|, k), f)
  {
    FaultyExact(list, tiles, h, base, lo, hi, k);
    AtMember(list, tiles, h, base, lo, hi, f, k);
    hide Heap;
  }

  ghost predicate NothingFree(tiles: seq<Tile>) {
    forall b :: b in tiles ==> !b.free
  }

  /** `base` is the highest member exactly when it lies above the arena or no block is free. */
  lemma BaseHighest(list: seq<nat>, tiles: seq<Tile>, h: Headers, base: nat, lo: nat, hi: nat)
    requires Heap(list, tiles, h.ptr, h.size, base, lo, hi) && Apart(base, lo, hi)
    ensures list != [] && list[|list| - 1] in h.size
    ensures list[|list| - 1] == base <==> base > hi || NothingFree(tiles)
  {
    var n := |list|;
    assert Ordered(list, h.size) && base in list;
    forall b | b in tiles && b.free
      ensures b.addr in list && lo <= b.addr < hi
    {
      FreeIsListed(list, tiles, base, b);
      var i :| 0 <= i < |tiles| && tiles[i] == b;
      TilesWithin(tiles, lo, hi, i);
    }
    if list[n - 1] != base {
      var j := MemberIs(list, tiles, base, list[n - 1]);
      assert tiles[j] in tiles;
      var x :| 0 <= x < n && list[x] == base;
      assert list[x] < list[n - 1];
    } else {
      assert forall x :: 0 <= x < n ==> list[x] <= base;
    }
  }

  // -------------------------------------------------------------- the allocator

  class Arena {
    /** The static list head, in units. */
    const base: nat
    /** First unit of the arena. */
    const lo: nat
    /** Last byte address the arena may reach. */
    const top: nat
    /** End of the arena so far, in units. */
    var bss: nat
    var freep: Option<nat>
    var ptr: map<nat, nat>
    var size: map<nat, nat>
    ghost var list: seq<nat>
    ghost var tiles: seq<Tile>

    ghost predicate Valid()
      reads this
    {
      && bss * HEADER <= top < WORD && lo <= bss && Apart(base, lo, top / HEADER)
      && match freep
         case None => tiles == [] && bss == lo
         case Some(p) => p in list && Heap(list, tiles, ptr, size, base, lo, bss)
    }

    constructor (base: nat, lo: nat, top: nat)
      requires lo * HEADER <= top < WORD && Apart(base, lo, top / HEADER)
      ensures Valid() && this.base == base && this.lo == lo && this.top == top
      ensures bss == lo && tiles == []
    {
      this.base, this.lo, this.top := base, lo, top;
      bss := lo;
      freep := None;
      ptr, size := map[], map[];
      list, tiles := [], [];
    }

    /** The search of free: the member after which the block belongs. */
    method Search(bp: nat, ghost t: nat) returns (p: nat, ghost i: nat)
      requires Valid() && t < |tiles| && !tiles[t].free && tiles[t].addr == bp && freep.Some?
      ensures p in list && p in ptr && (p < bp < ptr[p] || (ptr[p] <= p && (p < bp || bp < ptr[p])))
      ensures Freeing(list, tiles, Headers(ptr, size), base, lo, bss, t, i)
      ensures list != [] && p == Pred(list, i)
    {
      hide Heap, Apart, Freeing, Ordered;
      ghost var h, hi := Headers(ptr, size), bss;
      ApartBelow(base, lo, hi, top / HEADER);
      p := freep.value;
      ghost var k: nat :| k < |list| && list[k] == p;
      ghost var g := Destination(list, tiles, h, base, lo, hi, t);
      AtMember(list, tiles, h, base, lo, hi, k, k);
      while !(bp > p && bp < ptr[p])
        invariant k < |list| && list[k] == p && p in ptr && ptr[p] == list[Succ(|list|, k)]
        decreases Dist(|list|, k, g)
      {
        if p >= ptr[p] && (bp > p || bp < ptr[p]) {
          break;
        }
        assert !Stops(list, k, bp);
        p := ptr[p];
        k := Succ(|list|, k);
        AtMember(list, tiles, h, base, lo, hi, k, k);
      }
      i := Place(list, k, bp);
      StopFits(list, tiles, h, base, lo, hi, t, k);
    }

    /** The two conditional joins, with the predecessor found. */
    method Join(p: nat, bp: nat)
      requires Linked(Headers(ptr, size), p, bp)
      modifies this`freep, this`ptr, this`size
      ensures freep == Some(p) && Headers(ptr, size) == Link(old(Headers(ptr, size)), p, bp)
    {
      if bp + size[bp] == ptr[p] {
        var q := ptr[p];
        size := size[bp := size[bp] + size[q]];
        ptr := ptr[bp := ptr[q]];
      } else {
        ptr := ptr[bp := ptr[p]];
      }
      if p + size[p] == bp {
        size := size[p := size[p] + size[bp]];
        ptr := ptr[p := ptr[bp]];
      } else {
        ptr := ptr[p := bp];
      }
      freep := Some(p);
    }

    /** NULL does nothing; a live block becomes free and joins its free neighbours. */
    method Free(ap: Option<nat>)
      requires Valid()
      requires ap.Some? ==> ap.value >= 1 && LiveAt(tiles, ap.value - 1)
      modifies this`freep, this`ptr, this`size, this`list, this`tiles
      ensures Valid()
      ensures ap.None? ==> tiles == old(tiles) && freep == old(freep)
      ensures ap.Some? ==> freep.Some?
      ensures forall b :: b in Live(tiles) <==> b in old(Live(tiles)) && !(ap.Some? && b.addr == ap.value - 1)
      ensures forall b :: b in old(tiles) && ap.Some? && b.addr == ap.value - 1 ==> Available(tiles, b.len)
    {
      if ap.None? {
        return;
      }
      var bp := ap.value - 1;
      hide Heap, Apart, Freeing, Link, Live, Available, Release, Linked';
      ghost var t := LiveIs(tiles, bp);
      NotEmpty(tiles, t);
      var p, i := Search(bp, t);
      ghost var h := Headers(ptr, size);
      ghost var l, r := FreeAll(list, tiles, h, base, lo, bss, t, i);
      Join(p, bp);
      list, tiles := l, r;
    }

    /** Extends the arena by a block of at least `nu` units and frees it, or refuses and changes nothing. */
    method MoreCore(nu: nat) returns (r: Option<nat>)
      requires Valid() && freep.Some? && 1 <= nu <= WORD / HEADER && NoWrap(bss * HEADER, nu)
      modifies this
      ensures Valid() && Live(tiles) == old(Live(tiles))
      ensures r.None? <==> old(bss) * HEADER + Whole(nu) > top
      ensures r.None? ==> unchanged(this)
      ensures r.Some? ==> r == freep && Available(tiles, nu) && bss * HEADER == old(bss) * HEADER + Whole(nu)
    {
      GrantUnits(bss, top, nu);
      hide Heap, Live, Available, Grant, Whole, NoWrap, Apart;
      var granted := Grant(bss * HEADER, top, nu);
      if granted.None? {
        return None;
      }
      var n := granted.value;
      var up := Extend(n);
      Free(Some(up + 1));
      LargerAvailable(tiles, n, nu);
      r := freep;
    }

    /** The arena ends `n` units higher; the new units form one block that is in use. */
    method Extend(n: nat) returns (up: nat)
      requires Valid() && freep.Some? && n >= 1 && (bss + n) * HEADER <= top
      modifies this`bss, this`size, this`tiles
      ensures Valid() && LiveAt(tiles, up) && Tile(up, n, false) in tiles && bss == old(bss) + n
      ensures forall b :: b in Live(tiles) && b.addr != up <==> b in old(Live(tiles))
    {
      up := bss;
      hide Heap, Live, Apart;
      ApartBelow(base, lo, up + n, top / HEADER);
      GrowLive(list, tiles, Headers(ptr, size), base, lo, up, n);
      bss := bss + n;
      size := size[up := n];
      tiles := tiles + [Tile(up, n, false)];
    }

    /** Takes the request from a block that is large enough: all of it, or its tail. */
    method Take(prevp: nat, p: nat, n: nat, ghost k: nat) returns (r: nat)
      requires Valid() && freep.Some? && n >= 1
      requires k < |list| && list[k] == p && prevp == Pred(list, k) && p in size && size[p] >= n
      modifies this`freep, this`ptr, this`size, this`list, this`tiles
      ensures Valid() && freep.Some?
      ensures Live(tiles) == old(Live(tiles)) + {Tile(r, n, false)}
      ensures forall b :: b in old(Live(tiles)) ==> Disjoint(b, Tile(r, n, false))
    {
      hide Heap, Live, TakeWhole, TakeTail, Disjoint;
      ghost var h, hi := Headers(ptr, size), bss;
      ghost var j := MemberTile(list, tiles, h, base, lo, hi, k);
      ApartBelow(base, lo, hi, top / HEADER);
      if size[p] == n {
        WholeHeap(list, tiles, h, base, lo, hi, j, k);
        FreshBlock(list, tiles, h, base, lo, hi, j, Tile(p, n, false));
        ptr := ptr[prevp := ptr[p]];
        r := p;
        list, tiles := list[..k] + list[k + 1..], TakeWhole(tiles, j);
      } else {
        TailHeap(list, tiles, h, base, lo, hi, j, n);
        FreshBlock(list, tiles, h, base, lo, hi, j, Tile(p + size[p] - n, n, false));
        size := size[p := size[p] - n];
        r := p + size[p];
        size := size[r := n];
        tiles := TakeTail(tiles, j, n);
      }
      freep := Some(prevp);
    }

    /** First fit from freep on; the arena grows when a whole round has found nothing. */
    method FirstFit(n: nat) returns (r: Option<nat>)
      requires Valid() && freep.Some? && 1 <= n <= WORD / HEADER
      requires NoWrap(bss * HEADER, n) || Available(tiles, n)
      modifies this
      ensures Valid()
      ensures r.Some? ==> Live(tiles) == old(Live(tiles)) + {Tile(r.value, n, false)}
      ensures r.Some? ==> forall b :: b in old(Live(tiles)) ==> Disjoint(b, Tile(r.value, n, false))
      ensures r.None? ==> tiles == old(tiles) && bss == old(bss)
      ensures r.None? <==> !old(Available(tiles, n)) && old(bss) * HEADER + Whole(n) > top
      ensures bss * HEADER == old(bss) * HEADER || bss * HEADER == old(bss) * HEADER + Whole(n)
      ensures old(Available(tiles, n)) ==> bss == old(bss)
    {
      hide Heap, Live, Available, Disjoint, NoWrap, Apart, Ahead, Whole;
      ghost var grown := false;
      var prevp := freep.value;
      ghost var f, k := Start(list, tiles, Headers(ptr, size), base, lo, bss, prevp, n);
      var p := ptr[prevp];
      while true
        invariant Valid() && freep.Some? && Live(tiles) == old(Live(tiles))
        invariant !grown ==> tiles == old(tiles) && bss == old(bss)
        invariant grown ==> !old(Available(tiles, n)) && bss * HEADER == old(bss) * HEADER + Whole(n)
        invariant grown ==> Available(tiles, n)
        invariant grown ==> old(bss) * HEADER + Whole(n) <= top
        invariant At(list, ptr, size, freep.value, f, prevp, p, k)
        invariant Ahead(list, size, n, k, f)
        decreases !grown, Dist(|list|, k, f)
      {
        if size[p] >= n {
          FitAvailable(list, tiles, Headers(ptr, size), base, lo, bss, n, k);
          var a := Take(prevp, p, n, k);
          return Some(a);
        }
        if p == freep.value {
          NoneAhead(list, tiles, Headers(ptr, size), base, lo, bss, n, k, f);
          var q := MoreCore(n);
          if q.None? {
            return None;
          }
          grown := true;
          prevp := q.value;
          f, k := Start(list, tiles, Headers(ptr, size), base, lo, bss, prevp, n);
          p := ptr[prevp];
        } else {
          Advance(list, tiles, Headers(ptr, size), base, lo, bss, n, k, f);
          prevp, p := p, ptr[p];
          k := Succ(|list|, k);
        }
      }
    }

    method Malloc(nbytes: nat) returns (r: Option<nat>)
      requires Valid() && nbytes < WORD
      requires NoWrap(bss * HEADER, Nunits(nbytes)) || Available(tiles, Nunits(nbytes))
      modifies this
      ensures Valid()
      ensures r.Some? ==> r.value >= 1 && Live(tiles) == old(Live(tiles)) + {Tile(r.value - 1, Nunits(nbytes), false)}
      ensures r.Some? ==> forall b :: b in old(Live(tiles)) ==> Disjoint(b, Tile(r.value - 1, Nunits(nbytes), false))
      ensures r.Some? && nbytes <= WORD - HEADER ==> HEADER * (Nunits(nbytes) - 1) >= nbytes
      ensures r.None? ==> tiles == old(tiles) && bss == old(bss)
      ensures r.None? <==> !old(Available(tiles, Nunits(nbytes))) && old(bss) * HEADER + Whole(Nunits(nbytes)) > top
      ensures bss == old(bss) || bss * HEADER == old(bss) * HEADER + Whole(Nunits(nbytes))
      ensures old(Available(tiles, Nunits(nbytes))) ==> bss == old(bss)
    {
      NunitsExact(nbytes);
      var n := Nunits(nbytes);
      hide Live, Available, Disjoint, NoWrap, Apart, Heap, Nunits, Whole;
      if freep.None? {
        ptr, size, freep := ptr[base := base], size[base := 0], Some(base);
        list := [base];
        EmptyHeap(ptr, size, base, lo);
      }
      var a := FirstFit(n);
      r := match a case None => None case Some(p) => Some(p + 1);
    }

    /** The checker accepts a correct list exactly when `base` lies above the arena or nothing is free. */
    method Check() returns (ok: bool)
      requires Valid()
      ensures ok <==> freep.None? || base > bss || NothingFree(tiles)
    {
      if freep.None? {
        return true;
      }
      hide Heap, Apart, NothingFree;
      ApartBelow(base, lo, bss, top / HEADER);
      BaseHighest(list, tiles, Headers(ptr, size), base, lo, bss);
      ok := CheckList();
    }

    /** The loop of the checker, once around the list or until a member is rejected. */
    method CheckList() returns (ok: bool)
      requires Valid() && freep.Some? && list != [] && list[|list| - 1] in size
      ensures ok <==> list[|list| - 1] == base
    {
      hide Heap, Apart, Ahead, At, Faulty, Dist, Succ;
      ghost var h, hi, last := Headers(ptr, size), bss, |list| - 1;
      ghost var f: nat, k: nat := Start(list, tiles, h, base, lo, hi, freep.value, 0);
      StartAt(list, h, freep.value, f, k);
      var p := ptr[freep.value];
      LastAhead(list, h.size, k, f);
      while true
        invariant k < |list| && f < |list| && list[k] == p && list[f] == freep.value
        invariant list[last] != base ==> Dist(|list|, last, f) <= Dist(|list|, k, f)
        decreases Dist(|list|, k, f)
      {
        CheckStep(list, tiles, h, base, lo, hi, f, k);
        if p != base && (p > ptr[p] || p + size[p] > ptr[p] || size[p] == 0) {
          return false;
        }
        if p == freep.value {
          return true;
        }
        p := ptr[p];
        k := Succ(|list|, k);
      }
    }
  }

  lemma LiveIs(tiles: seq<Tile>, a: nat) returns (t: nat)
    requires LiveAt(tiles, a)
    ensures t < |tiles| && !tiles[t].free && tiles[t].addr == a
  {
    var b :| b in Live(tiles) && b.addr == a;
    t :| 0 <= t < |tiles| && tiles[t] == b;
  }

  lemma NotEmpty(tiles: seq<Tile>, t: nat)
    requires t < |tiles|
    ensures tiles != []
  {
  }

  /** Everything free establishes, for the list and the blocks it leaves. */
  lemma FreeAll(list: seq<nat>, tiles: seq<Tile>, h: Headers, base: nat, lo: nat, hi: nat, t: nat, i: nat)
    returns (l: seq<nat>, r: seq<Tile>)
    requires Freeing(list, tiles, h, base, lo, hi, t, i)
    ensures list != [] && Linked(h, Pred(list, i), tiles[t].addr)
    ensures var h' := Link(h, Pred(list, i), tiles[t].addr); Heap(l, r, h'.ptr, h'.size, base, lo, hi)
    ensures Pred(list, i) in l
    ensures forall b :: b in Live(r) <==> b in Live(tiles) && b.addr != tiles[t].addr
    ensures forall b :: b in tiles && b.addr == tiles[t].addr ==> Available(r, b.len)
  {
    hide Heap, Live, Available;
    FreeHeap(list, tiles, h, base, lo, hi, t, i);
    ReleaseLive(list, tiles, h, base, lo, hi, t, i);
    PredListed(list, tiles, h, base, lo, hi, t, i);
    l, r := Linked'(list, h.size, i, tiles[t].addr), Release(tiles, t);
  }

  /** Some member stops the search for the place of a live block. */
  lemma Destination(list: seq<nat>, tiles: seq<Tile>, h: Headers, base: nat, lo: nat, hi: nat, t: nat) returns (g: nat)
    requires Heap(list, tiles, h.ptr, h.size, base, lo, hi) && Apart(base, lo, hi) && t < |tiles| && !tiles[t].free
    ensures g < |list| && Stops(list, g, tiles[t].addr)
  {
    NotListed(list, tiles, h, base, lo, hi, t);
    g := SomeStop(list, h.size, tiles[t].addr);
  }

  /** A live block is not on the list. */
  lemma NotListed(list: seq<nat>, tiles: seq<Tile>, h: Headers, base: nat, lo: nat, hi: nat, t: nat)
    requires Heap(list, tiles, h.ptr, h.size, base, lo, hi) && Apart(base, lo, hi) && t < |tiles| && !tiles[t].free
    ensures tiles[t].addr !in list
  {
    if tiles[t].addr in list {
      MemberClear(list, tiles, h, base, lo, hi, t, tiles[t].addr);
      assert false;
    }
  }

  /** The predecessor stays on the list: it may grow, but is never swallowed. */
  lemma PredListed(list: seq<nat>, tiles: seq<Tile>, h: Headers, base: nat, lo: nat, hi: nat, t: nat, i: nat)
    requires Freeing(list, tiles, h, base, lo, hi, t, i)
    ensures list != [] && Pred(list, i) in Linked'(list, h.size, i, tiles[t].addr)
  {
    var bp := tiles[t].addr;
    IsMatching(list, tiles, h, base, lo, hi, t, i);
    OrderedNoDup(list, h.size);
    LinkedMembers(list, h.size, i, bp);
    if FreeAbove(tiles, t) {
      AtLeastTwo(list, tiles, h, base, lo, hi, t, i);
    }
  }

  /** Freeing takes exactly one block from the live ones and leaves a free block at least as large. */
  lemma ReleaseLive(list: seq<nat>, tiles: seq<Tile>, h: Headers, base: nat, lo: nat, hi: nat, t: nat, i: nat)
    requires Freeing(list, tiles, h, base, lo, hi, t, i)
    ensures forall b :: b in Live(Release(tiles, t)) <==> b in Live(tiles) && b.addr != tiles[t].addr
    ensures forall b :: b in tiles && b.addr == tiles[t].addr ==> b.len == tiles[t].len
    ensures Available(Release(tiles, t), tiles[t].len)
  {
    ReleaseTiled(tiles, lo, hi, t);
    JoinedAre(tiles, t);
    forall b | b in tiles && b.addr == tiles[t].addr
      ensures b == tiles[t]
    {
      SameHeader(tiles, lo, hi, b, tiles[t]);
    }
    hide Tiled, Heap;
    var r := Release(tiles, t);
    ReleaseLarge(tiles, t);
    forall b
      ensures b in Live(r) <==> b in Live(tiles) && b.addr != tiles[t].addr
    {
    }
  }

  lemma ReleaseLarge(tiles: seq<Tile>, t: nat)
    requires t < |tiles|
    ensures Available(Release(tiles, t), tiles[t].len)
  {
    var r := Release(tiles, t);
    var a := if FreeBelow(tiles, t) then t - 1 else t;
    assert r[a] in r && r[a].free && r[a].len >= tiles[t].len;
  }

  /** The new block is live, enlarges the arena, and its address was no live block's. */
  lemma GrowLive(list: seq<nat>, tiles: seq<Tile>, h: Headers, base: nat, lo: nat, hi: nat, n: nat)
    requires Heap(list, tiles, h.ptr, h.size, base, lo, hi) && Apart(base, lo, hi + n) && n >= 1 && lo <= hi
    ensures var r := tiles + [Tile(hi, n, false)];
      && Heap(list, r, h.ptr, h.size[hi := n], base, lo, hi + n)
      && LiveAt(r, hi) && Tile(hi, n, false) in r
      && forall b :: b in Live(r) && b.addr != hi <==> b in Live(tiles)
  {
    GrowHeap(list, tiles, h, base, lo, hi, n);
    GrowSized(tiles, h.size, lo, hi, n);
    hide Heap;
    assert Tile(hi, n, false) in Live(tiles + [Tile(hi, n, false)]);
  }

  lemma LargerAvailable(tiles: seq<Tile>, m: nat, n: nat)
    requires Available(tiles, m) && m >= n
    ensures Available(tiles, n)
  {
  }

  /** A listed block of non-zero size is a free block of the arena. */
  lemma MemberTile(list: seq<nat>, tiles: seq<Tile>, h: Headers, base: nat, lo: nat, hi: nat, k: nat) returns (j: nat)
    requires Heap(list, tiles, h.ptr, h.size, base, lo, hi) && k < |list| &&
      (list[k] in h.size ==> h.size[list[k]] >= 1)
    ensures j < |tiles| && tiles[j].free && tiles[j].addr == list[k] && list[k] in h.size &&
      tiles[j].len == h.size[list[k]]
    ensures Pred(list, k) in list && list[k] in h.ptr
  {
    assert Points(list, h.ptr, k);
    j := MemberIs(list, tiles, base, list[k]);
  }

  lemma ApartBelow(base: nat, lo: nat, hi: nat, limit: nat)
    requires Apart(base, lo, limit) && hi <= limit
    ensures Apart(base, lo, hi)
  {
  }

  /** Anything inside a free block is clear of every live block. */
  lemma FreshBlock(list: seq<nat>, tiles: seq<Tile>, h: Headers, base: nat, lo: nat, hi: nat, j: nat, c: Tile)
    requires Heap(list, tiles, h.ptr, h.size, base, lo, hi) && j < |tiles| && tiles[j].free
    requires tiles[j].addr <= c.addr && c.addr + c.len <= tiles[j].addr + tiles[j].len
    ensures forall b :: b in Live(tiles) ==> Disjoint(b, c)
  {
    forall b | b in Live(tiles)
      ensures Disjoint(b, c)
    {
      BlocksDisjoint(tiles, lo, hi, b, tiles[j]);
    }
  }

  lemma EmptyHeap(ptr: map<nat, nat>, size: map<nat, nat>, base: nat, lo: nat)
    requires base in ptr && ptr[base] == base && base in size && size[base] == 0
    ensures Heap([base], [], ptr, size, base, lo, lo)
  {
    forall a
      ensures a in [base] <==> a == base || FreeAt([], a)
    {
    }
  }
}
