/**
 The K&R allocator of the C library. Addresses and sizes are counted in units of
 one header. The free list is a circular list threaded through the headers of
 the free blocks and the static header `base`, which has size zero.
 */
module KrMalloc {
  import opened Seqs

  /** A block of the arena: its header's address, its size in units, and whether it is free. */
  datatype Tile = Tile(addr: nat, len: nat, free: bool)

  /** The blocks fill lo..hi in address order, without gap or overlap. */
  ghost predicate Tiled(tiles: seq<Tile>, lo: nat, hi: nat) {
    && (forall i :: 0 <= i < |tiles| ==> tiles[i].len >= 1)
    && (if tiles == [] then lo == hi
        else tiles[0].addr == lo && tiles[|tiles| - 1].addr + tiles[|tiles| - 1].len == hi)
    && (forall i, j :: 0 <= i < j < |tiles| ==> tiles[i].addr + tiles[i].len <= tiles[j].addr)
    && (forall i, j :: 0 <= i && j == i + 1 < |tiles| ==> tiles[i].addr + tiles[i].len == tiles[j].addr)
  }

  lemma TilesWithin(tiles: seq<Tile>, lo: nat, hi: nat, i: nat)
    requires Tiled(tiles, lo, hi) && i < |tiles|
    ensures lo <= tiles[i].addr && tiles[i].addr + tiles[i].len <= hi
  {
    assert tiles[0].addr <= tiles[i].addr && tiles[i].addr <= tiles[|tiles| - 1].addr;
  }

  ghost predicate FreeAt(tiles: seq<Tile>, a: nat) {
    exists b :: b in tiles && b.free && b.addr == a
  }

  /** The header of every block holds its size. */
  ghost predicate Sized(tiles: seq<Tile>, size: map<nat, nat>) {
    forall i :: 0 <= i < |tiles| ==> tiles[i].addr in size && size[tiles[i].addr] == tiles[i].len
  }

  function Succ(n: nat, k: nat): nat { if k + 1 < n then k + 1 else 0 }

  /** Ascending, with a gap behind every block: neighbouring free blocks have been joined. */
  ghost predicate Ordered(list: seq<nat>, size: map<nat, nat>) {
    && (forall k :: 0 <= k < |list| ==> list[k] in size)
    && (forall i, j :: 0 <= i < j < |list| ==> list[i] + size[list[i]] < list[j])
  }

  /** Every pointer leads to the next member, the last one back to the first. */
  ghost predicate Circle(list: seq<nat>, ptr: map<nat, nat>) {
    forall k :: 0 <= k < |list| ==> Points(list, ptr, k)
  }

  predicate Points(list: seq<nat>, ptr: map<nat, nat>, k: nat)
    requires k < |list|
  {
    list[k] in ptr && ptr[list[k]] == list[Succ(|list|, k)]
  }

  /** The free list: ordered, coalesced and closed into a circle. */
  ghost predicate Ring(list: seq<nat>, ptr: map<nat, nat>, size: map<nat, nat>) {
    list != [] && Ordered(list, size) && Circle(list, ptr)
  }

  /** The list visits exactly the free blocks and `base`. */
  ghost predicate Lists(list: seq<nat>, tiles: seq<Tile>, base: nat) {
    forall a :: a in list <==> a == base || FreeAt(tiles, a)
  }

  /** Everything the allocator keeps true between calls, once the list exists. */
  ghost predicate Heap(list: seq<nat>, tiles: seq<Tile>, ptr: map<nat, nat>, size: map<nat, nat>, base: nat,
      lo: nat, hi: nat) {
    && Ring(list, ptr, size) && Tiled(tiles, lo, hi) && Sized(tiles, size) && Lists(list, tiles, base)
    && base in size && size[base] == 0
  }

  lemma FreeIsListed(list: seq<nat>, tiles: seq<Tile>, base: nat, b: Tile)
    requires Lists(list, tiles, base) && b in tiles && b.free
    ensures b.addr in list
  {
    assert FreeAt(tiles, b.addr);
  }

  /** Behind every member of the list there is room before the next one. */
  lemma RingGap(list: seq<nat>, ptr: map<nat, nat>, size: map<nat, nat>, a: nat, b: nat)
    requires Ring(list, ptr, size) && a in list && b in list && a < b
    ensures a in size && a + size[a] < b
  {
    var x :| 0 <= x < |list| && list[x] == a;
    var y :| 0 <= y < |list| && list[y] == b;
  }

  // ------------------------------------------- consequences of the invariant

  /** Blocks with different headers do not overlap. */
  lemma BlocksDisjoint(tiles: seq<Tile>, lo: nat, hi: nat, a: Tile, b: Tile)
    requires Tiled(tiles, lo, hi) && a in tiles && b in tiles && a != b
    ensures a.addr + a.len <= b.addr || b.addr + b.len <= a.addr
  {
    var i :| 0 <= i < |tiles| && tiles[i] == a;
    var j :| 0 <= j < |tiles| && tiles[j] == b;
    assert if i < j then a.addr + a.len <= b.addr else b.addr + b.len <= a.addr;
  }

  lemma SameHeader(tiles: seq<Tile>, lo: nat, hi: nat, a: Tile, b: Tile)
    requires Tiled(tiles, lo, hi) && a in tiles && b in tiles && a.addr == b.addr
    ensures a == b
  {
    if a != b {
      BlocksDisjoint(tiles, lo, hi, a, b);
    }
  }

  function Units(tiles: seq<Tile>, free: bool): nat {
    if tiles == [] then 0 else (if tiles[0].free == free then tiles[0].len else 0) + Units(tiles[1..], free)
  }

  /** Free plus allocated units are the whole arena. */
  lemma {:induction false} Conservation(tiles: seq<Tile>, lo: nat, hi: nat)
    requires Tiled(tiles, lo, hi)
    ensures Units(tiles, true) + Units(tiles, false) == hi - lo
  {
    if tiles != [] {
      var rest := tiles[1..];
      assert rest != [] ==> tiles[1] == rest[0];
      Conservation(rest, lo + tiles[0].len, hi);
    }
  }

  /** No two neighbouring blocks are both free. */
  lemma FullyCoalesced(list: seq<nat>, tiles: seq<Tile>, ptr: map<nat, nat>, size: map<nat, nat>, base: nat, lo: nat,
      hi: nat, i: nat)
    requires Heap(list, tiles, ptr, size, base, lo, hi) && i + 1 < |tiles|
    ensures !(tiles[i].free && tiles[i + 1].free)
  {
    if tiles[i].free && tiles[i + 1].free {
      hide Ring, Lists;
      var a, b := tiles[i].addr, tiles[i + 1].addr;
      FreeIsListed(list, tiles, base, tiles[i]);
      FreeIsListed(list, tiles, base, tiles[i + 1]);
      RingGap(list, ptr, size, a, b);
      assert false;
    }
  }

  // ------------------------------------------------------ the list in free

  /** `bp` belongs between list[i - 1] and list[i] and touches at most their borders. */
  ghost predicate Fits(list: seq<nat>, size: map<nat, nat>, i: nat, bp: nat) {
    && i <= |list| && bp in size && size[bp] >= 1
    && (forall k :: 0 <= k < |list| ==> list[k] in size)
    && (forall k :: 0 <= k < i ==> list[k] + size[list[k]] <= bp && list[k] < bp)
    && (forall k :: i <= k < |list| ==> bp + size[bp] <= list[k])
  }

  /** The predecessor free finds: the member before `bp`, or the highest one if `bp` is the lowest. */
  function Pred(list: seq<nat>, i: nat): nat
    requires list != [] && i <= |list|
  {
    if i > 0 then list[i - 1] else list[|list| - 1]
  }

  datatype Headers = Headers(ptr: map<nat, nat>, size: map<nat, nat>)

  predicate Linked(h: Headers, p: nat, bp: nat) {
    p in h.ptr && p in h.size && bp in h.size && h.ptr[p] in h.ptr && h.ptr[p] in h.size
  }

  /** The two conditional joins of free, with `p` found. */
  function Link(h: Headers, p: nat, bp: nat): Headers
    requires Linked(h, p, bp)
  {
    var q := h.ptr[p];
    var u := if bp + h.size[bp] == q then Headers(h.ptr[bp := h.ptr[q]], h.size[bp := h.size[bp] + h.size[q]])
             else Headers(h.ptr[bp := q], h.size);
    if p + u.size[p] == bp then Headers(u.ptr[p := u.ptr[bp]], u.size[p := u.size[p] + u.size[bp]])
    else Headers(u.ptr[p := bp], u.size)
  }

  /** The list after free: `bp` enters, unless it joins its predecessor; its successor leaves if it is joined. */
  function Linked'(list: seq<nat>, size: map<nat, nat>, i: nat, bp: nat): seq<nat>
    requires Fits(list, size, i, bp) && list != []
  {
    var down := i > 0 && list[i - 1] + size[list[i - 1]] == bp;
    var up := i < |list| && bp + size[bp] == list[i];
    list[..i] + (if down then [] else [bp]) + list[(if up then i + 1 else i)..]
  }

  predicate JoinsDown(list: seq<nat>, size: map<nat, nat>, i: nat, bp: nat) {
    0 < i <= |list| && list[i - 1] in size && list[i - 1] + size[list[i - 1]] == bp
  }

  predicate JoinsUp(list: seq<nat>, size: map<nat, nat>, i: nat, bp: nat) {
    0 <= i < |list| && bp in size && bp + size[bp] == list[i]
  }

  lemma InsertCircle(list: seq<nat>, ptr: map<nat, nat>, i: nat, bp: nat)
    requires Circle(list, ptr) && NoDup(list) && list != [] && i <= |list| && bp !in list && Pred(list, i) in ptr
    ensures Circle(list[..i] + [bp] + list[i..], ptr[bp := ptr[Pred(list, i)]][Pred(list, i) := bp])
  {
    var n, p := |list|, Pred(list, i);
    var l, ptr' := list[..i] + [bp] + list[i..], ptr[bp := ptr[p]][p := bp];
    assert Points(list, ptr, if i > 0 then i - 1 else n - 1);
    forall k: nat | k < |l|
      ensures Points(l, ptr', k)
    {
      if k < i {
        assert Points(list, ptr, k) && l[k] == list[k];
      } else if k > i {
        assert Points(list, ptr, k - 1) && l[k] == list[k - 1];
      }
    }
  }

  lemma OrderedJoin(x: seq<nat>, y: seq<nat>, size: map<nat, nat>)
    requires Ordered(x, size) && Ordered(y, size)
    requires x != [] && y != [] ==> x[|x| - 1] + size[x[|x| - 1]] < y[0]
    ensures Ordered(x + y, size)
  {
    var z := x + y;
    forall i, j | 0 <= i < j < |z|
      ensures z[i] + size[z[i]] < z[j]
    {
      if i < |x| <= j {
        assert i < |x| - 1 ==> x[i] + size[x[i]] < x[|x| - 1];
        assert j > |x| ==> y[0] < y[j - |x|];
      }
    }
  }

  lemma InsertOrdered(list: seq<nat>, size: map<nat, nat>, i: nat, bp: nat)
    requires Ordered(list, size) && Fits(list, size, i, bp)
    requires !JoinsDown(list, size, i, bp) && !JoinsUp(list, size, i, bp)
    ensures Ordered(list[..i] + [bp] + list[i..], size)
  {
    var x, y := list[..i], list[i..];
    assert Ordered(x, size) && Ordered(y, size);
    assert x != [] ==> x[i - 1] == list[i - 1] && list[i - 1] + size[list[i - 1]] < bp;
    assert y != [] ==> y[0] == list[i] && bp + size[bp] < list[i];
    hide Ordered, Fits;
    SingleOrdered(bp, size);
    OrderedJoin(x, [bp], size);
    OrderedJoin(x + [bp], y, size);
  }

  lemma SingleOrdered(bp: nat, size: map<nat, nat>)
    requires bp in size
    ensures Ordered([bp], size)
  {
  }

  lemma CircleFrame(list: seq<nat>, ptr: map<nat, nat>, bp: nat, v: nat)
    requires Circle(list, ptr) && bp !in list
    ensures Circle(list, ptr[bp := v])
  {
    var ptr' := ptr[bp := v];
    forall k: nat | k < |list|
      ensures Points(list, ptr', k)
    {
      assert Points(list, ptr, k) && list[k] in list;
    }
  }

  /** Member `i` leaves the circle. */
  lemma RemoveCircle(list: seq<nat>, ptr: map<nat, nat>, i: nat)
    requires Circle(list, ptr) && NoDup(list) && |list| >= 2 && i < |list| && list[i] in ptr
    ensures Circle(list[..i] + list[i + 1..], ptr[Pred(list, i) := ptr[list[i]]])
  {
    var n, p := |list|, Pred(list, i);
    var l, ptr' := list[..i] + list[i + 1..], ptr[p := ptr[list[i]]];
    assert Points(list, ptr, i);
    forall k: nat | k < |l|
      ensures Points(l, ptr', k)
    {
      if k < i {
        assert Points(list, ptr, k) && l[k] == list[k];
      } else {
        assert Points(list, ptr, k + 1) && l[k] == list[k + 1];
      }
    }
  }

  /** `bp` takes the place of member `i`. */
  lemma ReplaceCircle(list: seq<nat>, ptr: map<nat, nat>, i: nat, bp: nat)
    requires Circle(list, ptr) && NoDup(list) && |list| >= 2 && i < |list| && list[i] in ptr && bp !in list
    ensures Circle(list[i := bp], ptr[bp := ptr[list[i]]][Pred(list, i) := bp])
  {
    var p := Pred(list, i);
    var l, ptr' := list[i := bp], ptr[bp := ptr[list[i]]][p := bp];
    assert Points(list, ptr, i);
    forall k: nat | k < |l|
      ensures Points(l, ptr', k)
    {
      assert Points(list, ptr, k);
    }
  }

  lemma DownOrdered(list: seq<nat>, size: map<nat, nat>, i: nat, bp: nat)
    requires Ordered(list, size) && Fits(list, size, i, bp)
    requires JoinsDown(list, size, i, bp) && !JoinsUp(list, size, i, bp)
    ensures Ordered(list, size[list[i - 1] := size[list[i - 1]] + size[bp]])
  {
    var p := list[i - 1];
    var size' := size[p := size[p] + size[bp]];
    forall x, y | 0 <= x < y < |list|
      ensures list[x] + size'[list[x]] < list[y]
    {
      if x == i - 1 {
        assert y > i ==> list[i] < list[y];
      }
    }
  }

  lemma UpOrdered(list: seq<nat>, size: map<nat, nat>, i: nat, bp: nat)
    requires Ordered(list, size) && Fits(list, size, i, bp)
    requires !JoinsDown(list, size, i, bp) && JoinsUp(list, size, i, bp)
    ensures Ordered(list[i := bp], size[bp := size[bp] + size[list[i]]])
  {
    var l, size' := list[i := bp], size[bp := size[bp] + size[list[i]]];
    forall x, y | 0 <= x < y < |l|
      ensures l[x] + size'[l[x]] < l[y]
    {
      if y == i && x < i - 1 {
        assert list[x] + size[list[x]] < list[i - 1];
      }
    }
  }

  lemma BothOrdered(list: seq<nat>, size: map<nat, nat>, i: nat, bp: nat)
    requires Ordered(list, size) && Fits(list, size, i, bp)
    requires JoinsDown(list, size, i, bp) && JoinsUp(list, size, i, bp)
    ensures Ordered(list[..i] + list[i + 1..], size[list[i - 1] := size[list[i - 1]] + size[bp] + size[list[i]]])
  {
    var p := list[i - 1];
    var l, size' := list[..i] + list[i + 1..], size[p := size[p] + size[bp] + size[list[i]]];
    forall x, y | 0 <= x < y < |l|
      ensures l[x] + size'[l[x]] < l[y]
    {
      assert l[x] == list[if x < i then x else x + 1] && l[y] == list[if y < i then y else y + 1];
    }
  }

  lemma OrderedNoDup(list: seq<nat>, size: map<nat, nat>)
    requires Ordered(list, size)
    ensures NoDup(list)
  {
  }

  lemma FitsNotListed(list: seq<nat>, size: map<nat, nat>, i: nat, bp: nat)
    requires Fits(list, size, i, bp)
    ensures bp !in list
  {
  }

  lemma OrderedFrame(list: seq<nat>, size: map<nat, nat>, bp: nat, v: nat)
    requires Ordered(list, size) && bp !in list
    ensures Ordered(list, size[bp := v])
  {
    assert forall k :: 0 <= k < |list| ==> list[k] in list;
  }

  /** What free relies on once it has found the predecessor. */
  ghost predicate Placed(list: seq<nat>, h: Headers, i: nat, bp: nat) {
    && list != [] && Ordered(list, h.size) && Circle(list, h.ptr) && NoDup(list)
    && Fits(list, h.size, i, bp) && bp !in list
    && Linked(h, Pred(list, i), bp)
    && h.ptr[Pred(list, i)] == list[if i < |list| then i else 0]
    && (JoinsUp(list, h.size, i, bp) || JoinsDown(list, h.size, i, bp) ==> |list| >= 2)
  }

  lemma LinkBoth(list: seq<nat>, h: Headers, i: nat, bp: nat)
    requires Placed(list, h, i, bp) && JoinsDown(list, h.size, i, bp) && JoinsUp(list, h.size, i, bp)
    ensures var h' := Link(h, Pred(list, i), bp); Ring(Linked'(list, h.size, i, bp), h'.ptr, h'.size)
  {
    var p, q := Pred(list, i), list[i];
    var h', l := Link(h, p, bp), list[..i] + list[i + 1..];
    RemoveCircle(list, h.ptr, i);
    BothOrdered(list, h.size, i, bp);
    hide Circle, Ordered;
    assert Linked'(list, h.size, i, bp) == l;
    var ptr1, size1 := h.ptr[p := h.ptr[q]], h.size[p := h.size[p] + h.size[bp] + h.size[q]];
    assert h'.ptr == ptr1[bp := h.ptr[q]] && h'.size == size1[bp := h.size[bp] + h.size[q]];
    CircleFrame(l, ptr1, bp, h.ptr[q]);
    OrderedFrame(l, size1, bp, h.size[bp] + h.size[q]);
  }

  lemma LinkUp(list: seq<nat>, h: Headers, i: nat, bp: nat)
    requires Placed(list, h, i, bp) && !JoinsDown(list, h.size, i, bp) && JoinsUp(list, h.size, i, bp)
    ensures var h' := Link(h, Pred(list, i), bp); Ring(Linked'(list, h.size, i, bp), h'.ptr, h'.size)
  {
    ReplaceCircle(list, h.ptr, i, bp);
    UpOrdered(list, h.size, i, bp);
    NotBelow(list, h.size, i, bp);
    hide Circle, Ordered, Fits;
    assert Linked'(list, h.size, i, bp) == list[i := bp];
  }

  /** When nothing is joined below, the predecessor found does not end at `bp`. */
  lemma NotBelow(list: seq<nat>, size: map<nat, nat>, i: nat, bp: nat)
    requires Fits(list, size, i, bp) && list != [] && !JoinsDown(list, size, i, bp)
    ensures Pred(list, i) in size && Pred(list, i) != bp && Pred(list, i) + size[Pred(list, i)] != bp
  {
  }

  lemma LinkDown(list: seq<nat>, h: Headers, i: nat, bp: nat)
    requires Placed(list, h, i, bp) && JoinsDown(list, h.size, i, bp) && !JoinsUp(list, h.size, i, bp)
    ensures var h' := Link(h, Pred(list, i), bp); Ring(Linked'(list, h.size, i, bp), h'.ptr, h'.size)
  {
    var p := Pred(list, i);
    var h' := Link(h, p, bp);
    DownOrdered(list, h.size, i, bp);
    NotAbove(list, h.size, i, bp);
    CircleFrame(list, h.ptr, bp, h.ptr[p]);
    hide Circle, Ordered, Fits;
    assert Linked'(list, h.size, i, bp) == list;
    assert h'.ptr == h.ptr[bp := h.ptr[p]] && h'.size == h.size[p := h.size[p] + h.size[bp]];
  }

  /** When nothing is joined above, the block does not end at the successor found. */
  lemma NotAbove(list: seq<nat>, size: map<nat, nat>, i: nat, bp: nat)
    requires Fits(list, size, i, bp) && list != [] && !JoinsUp(list, size, i, bp)
    ensures bp + size[bp] != list[if i < |list| then i else 0]
  {
  }

  lemma LinkPlain(list: seq<nat>, h: Headers, i: nat, bp: nat)
    requires Placed(list, h, i, bp) && !JoinsDown(list, h.size, i, bp) && !JoinsUp(list, h.size, i, bp)
    ensures var h' := Link(h, Pred(list, i), bp); Ring(Linked'(list, h.size, i, bp), h'.ptr, h'.size)
  {
    InsertCircle(list, h.ptr, i, bp);
    InsertOrdered(list, h.size, i, bp);
    NotBelow(list, h.size, i, bp);
    NotAbove(list, h.size, i, bp);
    hide Circle, Ordered, Fits;
  }

  /** The conditional joins keep the list circular, ordered and coalesced. */
  lemma LinkRing(list: seq<nat>, h: Headers, i: nat, bp: nat)
    requires Ring(list, h.ptr, h.size) && Fits(list, h.size, i, bp)
    requires JoinsUp(list, h.size, i, bp) || JoinsDown(list, h.size, i, bp) ==> |list| >= 2
    ensures Linked(h, Pred(list, i), bp)
    ensures var h' := Link(h, Pred(list, i), bp); Ring(Linked'(list, h.size, i, bp), h'.ptr, h'.size)
  {
    var n := |list|;
    OrderedNoDup(list, h.size);
    FitsNotListed(list, h.size, i, bp);
    assert Points(list, h.ptr, if i > 0 then i - 1 else n - 1);
    assert Points(list, h.ptr, if i < n then i else 0);
    assert Placed(list, h, i, bp);
    hide Placed, Link, Linked', Ring;
    if JoinsUp(list, h.size, i, bp) {
      if JoinsDown(list, h.size, i, bp) {
        LinkBoth(list, h, i, bp);
      } else {
        LinkUp(list, h, i, bp);
      }
    } else if JoinsDown(list, h.size, i, bp) {
      LinkDown(list, h, i, bp);
    } else {
      LinkPlain(list, h, i, bp);
    }
  }

  // ---------------------------------------------------- the blocks in free

  /** `base` lies outside the arena and does not border on its upper end. */
  predicate Apart(base: nat, lo: nat, limit: nat) {
    base < lo || limit < base
  }

  predicate FreeBelow(tiles: seq<Tile>, t: nat) { 0 < t < |tiles| && tiles[t - 1].free }
  predicate FreeAbove(tiles: seq<Tile>, t: nat) { t + 1 < |tiles| && tiles[t + 1].free }

  /** First of the blocks that become one when block `t` is freed. */
  function Lowest(tiles: seq<Tile>, t: nat): (a: nat)
    requires t < |tiles|
    ensures a <= t
  {
    if FreeBelow(tiles, t) then t - 1 else t
  }

  /** The block behind the last of them. */
  function Past(tiles: seq<Tile>, t: nat): (c: nat)
    requires t < |tiles|
    ensures t < c <= |tiles|
  {
    if FreeAbove(tiles, t) then t + 2 else t + 1
  }

  /** The block they become. */
  function Merged(tiles: seq<Tile>, t: nat): Tile
    requires t < |tiles|
  {
    Tile(tiles[Lowest(tiles, t)].addr,
         tiles[t].len + (if FreeBelow(tiles, t) then tiles[t - 1].len else 0) +
           (if FreeAbove(tiles, t) then tiles[t + 1].len else 0),
         true)
  }

  /** The blocks after freeing block `t`: it becomes free and one with its free neighbours. */
  function Release(tiles: seq<Tile>, t: nat): seq<Tile>
    requires t < |tiles|
  {
    tiles[..Lowest(tiles, t)] + [Merged(tiles, t)] + tiles[Past(tiles, t)..]
  }

  lemma TiledBelow(tiles: seq<Tile>, lo: nat, hi: nat, k: nat)
    requires Tiled(tiles, lo, hi) && k <= |tiles|
    ensures Tiled(tiles[..k], lo, if k < |tiles| then tiles[k].addr else hi)
  {
    var x := tiles[..k];
    assert k > 0 ==> x[k - 1] == tiles[k - 1];
  }

  lemma TiledAbove(tiles: seq<Tile>, lo: nat, hi: nat, k: nat)
    requires Tiled(tiles, lo, hi) && k <= |tiles|
    ensures Tiled(tiles[k..], if k < |tiles| then tiles[k].addr else hi, hi)
  {
    var y := tiles[k..];
    forall i, j | 0 <= i < j < |y|
      ensures y[i].addr + y[i].len <= y[j].addr && (j == i + 1 ==> y[i].addr + y[i].len == y[j].addr)
    {
      assert y[i] == tiles[i + k] && y[j] == tiles[j + k];
    }
    forall i | 0 <= i < |y|
      ensures y[i].len >= 1
    {
      assert y[i] == tiles[i + k];
    }
  }

  lemma TiledJoin(x: seq<Tile>, y: seq<Tile>, lo: nat, m: nat, hi: nat)
    requires Tiled(x, lo, m) && Tiled(y, m, hi)
    ensures Tiled(x + y, lo, hi)
  {
    var z := x + y;
    forall i, j | 0 <= i < j < |z|
      ensures z[i].addr + z[i].len <= z[j].addr && (j == i + 1 ==> z[i].addr + z[i].len == z[j].addr)
    {
      if i < |x| <= j {
        TilesWithin(x, lo, m, i);
        TilesWithin(y, m, hi, j - |x|);
      }
    }
  }

  /** Replacing neighbouring blocks by other blocks of the same extent. */
  lemma SpliceTiled(tiles: seq<Tile>, lo: nat, hi: nat, a: nat, c: nat, mid: seq<Tile>)
    requires Tiled(tiles, lo, hi) && a < c <= |tiles|
    requires Tiled(mid, tiles[a].addr, tiles[c - 1].addr + tiles[c - 1].len)
    ensures Tiled(tiles[..a] + mid + tiles[c..], lo, hi)
  {
    var e := tiles[c - 1].addr + tiles[c - 1].len;
    TiledBelow(tiles, lo, hi, a);
    TiledAbove(tiles, lo, hi, c);
    assert c < |tiles| ==> tiles[c].addr == e;
    hide Tiled;
    TiledJoin(tiles[..a], mid, lo, tiles[a].addr, e);
    TiledJoin(tiles[..a] + mid, tiles[c..], lo, e, hi);
  }

  lemma SpliceMembers(tiles: seq<Tile>, a: nat, c: nat, mid: seq<Tile>)
    requires NoDup(tiles) && a <= c <= |tiles|
    ensures forall b :: b in tiles[..a] + mid + tiles[c..] <==> b in mid || (b in tiles && b !in tiles[a..c])
  {
    var x, y, z := tiles[..a], tiles[a..c], tiles[c..];
    assert tiles == x + y + z;
    forall b | b in y
      ensures b !in x && b !in z
    {
      var j :| 0 <= j < |y| && y[j] == b;
      assert tiles[a + j] == b;
      assert forall i :: 0 <= i < |x| ==> x[i] == tiles[i];
      assert forall i :: 0 <= i < |z| ==> z[i] == tiles[c + i];
    }
  }

  lemma TiledNoDup(tiles: seq<Tile>, lo: nat, hi: nat)
    requires Tiled(tiles, lo, hi)
    ensures NoDup(tiles)
  {
  }

  /** Together they have the extent of the new block. */
  lemma ReleaseExtent(tiles: seq<Tile>, lo: nat, hi: nat, t: nat)
    requires Tiled(tiles, lo, hi) && t < |tiles|
    ensures var c := Past(tiles, t);
      Tiled([Merged(tiles, t)], tiles[Lowest(tiles, t)].addr, tiles[c - 1].addr + tiles[c - 1].len)
  {
    assert tiles[t].len >= 1;
  }

  lemma ReleaseTiled(tiles: seq<Tile>, lo: nat, hi: nat, t: nat)
    requires Tiled(tiles, lo, hi) && t < |tiles|
    ensures Tiled(Release(tiles, t), lo, hi)
    ensures forall b :: b in Release(tiles, t) <==>
      b == Merged(tiles, t) || (b in tiles && b !in tiles[Lowest(tiles, t)..Past(tiles, t)])
  {
    ReleaseExtent(tiles, lo, hi, t);
    TiledNoDup(tiles, lo, hi);
    hide Tiled, NoDup, Merged, Lowest, Past;
    SpliceTiled(tiles, lo, hi, Lowest(tiles, t), Past(tiles, t), [Merged(tiles, t)]);
    SpliceMembers(tiles, Lowest(tiles, t), Past(tiles, t), [Merged(tiles, t)]);
  }

  /** The state in which block `t` is freed, with the place `i` of its header in the list. */
  ghost predicate Freeing(list: seq<nat>, tiles: seq<Tile>, h: Headers, base: nat, lo: nat, hi: nat, t: nat, i: nat) {
    && Heap(list, tiles, h.ptr, h.size, base, lo, hi) && Apart(base, lo, hi)
    && t < |tiles| && !tiles[t].free && Fits(list, h.size, i, tiles[t].addr)
  }

  /** A block that ends where block `t` begins is the block below. */
  lemma EndsAt(tiles: seq<Tile>, lo: nat, hi: nat, t: nat, j: nat)
    requires Tiled(tiles, lo, hi) && t < |tiles| && j < |tiles|
    ensures tiles[j].addr + tiles[j].len == tiles[t].addr ==> j + 1 == t
  {
    if j + 1 < t {
      assert tiles[j].addr + tiles[j].len <= tiles[t - 1].addr && tiles[t - 1].len >= 1;
      assert tiles[t - 1].addr + tiles[t - 1].len <= tiles[t].addr;
    } else if t < j {
      assert tiles[t].addr + tiles[t].len <= tiles[j].addr;
    }
  }

  lemma MemberIs(list: seq<nat>, tiles: seq<Tile>, base: nat, a: nat) returns (j: nat)
    requires Lists(list, tiles, base) && a in list && a != base
    ensures j < |tiles| && tiles[j].free && tiles[j].addr == a
  {
    var b :| b in tiles && b.free && b.addr == a;
    j :| 0 <= j < |tiles| && tiles[j] == b;
  }

  lemma DownIsBelow(list: seq<nat>, tiles: seq<Tile>, h: Headers, base: nat, lo: nat, hi: nat, t: nat, i: nat)
    requires Freeing(list, tiles, h, base, lo, hi, t, i)
    ensures var bp := tiles[t].addr;
      && (JoinsDown(list, h.size, i, bp) <==> FreeBelow(tiles, t))
      && (FreeBelow(tiles, t) ==> list[i - 1] == tiles[t - 1].addr)
  {
    var bp := tiles[t].addr;
    TilesWithin(tiles, lo, hi, t);
    if JoinsDown(list, h.size, i, bp) {
      assert list[i - 1] != base;
      var j := MemberIs(list, tiles, base, list[i - 1]);
      EndsAt(tiles, lo, hi, t, j);
    }
    if FreeBelow(tiles, t) {
      FreeIsListed(list, tiles, base, tiles[t - 1]);
      BelowIsPred(list, h.size, i, bp, tiles[t - 1].addr);
    }
  }

  lemma BelowIsPred(list: seq<nat>, size: map<nat, nat>, i: nat, bp: nat, a: nat)
    requires Ordered(list, size) && Fits(list, size, i, bp) && a in list
    ensures a in size && (a + size[a] == bp ==> i > 0 && list[i - 1] == a)
  {
    var x :| 0 <= x < |list| && list[x] == a;
    if x + 1 < i {
      assert list[x] + size[list[x]] < list[i - 1] && list[i - 1] < bp;
    } else if i <= x {
      assert bp + size[bp] <= list[x];
    }
  }

  lemma AboveIsSucc(list: seq<nat>, size: map<nat, nat>, i: nat, bp: nat, a: nat)
    requires Ordered(list, size) && Fits(list, size, i, bp) && a in list
    ensures bp + size[bp] == a ==> i < |list| && list[i] == a
  {
    var x :| 0 <= x < |list| && list[x] == a;
    if i < x {
      assert bp + size[bp] <= list[i] && list[i] + size[list[i]] < list[x];
    } else if x < i {
      assert list[x] < bp;
    }
  }

  lemma UpIsAbove(list: seq<nat>, tiles: seq<Tile>, h: Headers, base: nat, lo: nat, hi: nat, t: nat, i: nat)
    requires Freeing(list, tiles, h, base, lo, hi, t, i)
    ensures var bp := tiles[t].addr;
      && (JoinsUp(list, h.size, i, bp) <==> FreeAbove(tiles, t))
      && (FreeAbove(tiles, t) ==> list[i] == tiles[t + 1].addr)
  {
    var bp := tiles[t].addr;
    TilesWithin(tiles, lo, hi, t);
    if JoinsUp(list, h.size, i, bp) {
      assert list[i] != base;
      var j := MemberIs(list, tiles, base, list[i]);
      EndsAt(tiles, lo, hi, j, t);
    }
    if FreeAbove(tiles, t) {
      FreeIsListed(list, tiles, base, tiles[t + 1]);
      AboveIsSucc(list, h.size, i, bp, tiles[t + 1].addr);
    }
  }

  lemma ReleaseSized(list: seq<nat>, tiles: seq<Tile>, h: Headers, base: nat, lo: nat, hi: nat, t: nat, i: nat)
    requires Freeing(list, tiles, h, base, lo, hi, t, i) && Matching(list, tiles, h, t, i)
    ensures Sized(Release(tiles, t), Link(h, Pred(list, i), tiles[t].addr).size)
  {
    ReleaseTiled(tiles, lo, hi, t);
    MergedSize(list, tiles, h, base, lo, hi, t, i);
    var h', r := Link(h, Pred(list, i), tiles[t].addr), Release(tiles, t);
    forall j | 0 <= j < |r|
      ensures r[j].addr in h'.size && h'.size[r[j].addr] == r[j].len
    {
      assert r[j] in r;
      if r[j] != Merged(tiles, t) {
        UntouchedSize(list, tiles, h, base, lo, hi, t, i, r[j]);
      }
    }
  }

  lemma MergedSize(list: seq<nat>, tiles: seq<Tile>, h: Headers, base: nat, lo: nat, hi: nat, t: nat, i: nat)
    requires Freeing(list, tiles, h, base, lo, hi, t, i) && Matching(list, tiles, h, t, i)
    ensures var size := Link(h, Pred(list, i), tiles[t].addr).size; var b := Merged(tiles, t);
      && b.addr in size && size[b.addr] == b.len
      && forall x :: x != tiles[t].addr && x != b.addr && x in h.size ==> x in size && size[x] == h.size[x]
  {
    var bp := tiles[t].addr;
    if !FreeBelow(tiles, t) { NotBelow(list, h.size, i, bp); }
    if !FreeAbove(tiles, t) { NotAbove(list, h.size, i, bp); }
    hide Ring, Lists, Fits, Tiled;
  }

  lemma UntouchedSize(list: seq<nat>, tiles: seq<Tile>, h: Headers, base: nat, lo: nat, hi: nat, t: nat,
      i: nat, b: Tile)
    requires Freeing(list, tiles, h, base, lo, hi, t, i)
    requires b in tiles && b !in tiles[Lowest(tiles, t)..Past(tiles, t)]
    ensures b.addr != tiles[t].addr && b.addr != Merged(tiles, t).addr && b.addr in h.size && h.size[b.addr] == b.len
  {
    var a := Lowest(tiles, t);
    JoinedAre(tiles, t);
    hide Ring, Lists, Fits;
    OtherAddr(tiles, lo, hi, b, t);
    OtherAddr(tiles, lo, hi, b, a);
  }

  /** A block that is neither `t` nor one of its free neighbours has another header. */
  lemma OtherAddr(tiles: seq<Tile>, lo: nat, hi: nat, b: Tile, t: nat)
    requires Tiled(tiles, lo, hi) && b in tiles && t < |tiles| && b != tiles[t]
    ensures b.addr != tiles[t].addr
  {
    BlocksDisjoint(tiles, lo, hi, b, tiles[t]);
  }

  /** Block `t` and the neighbours it joins are, in list and arena alike, the same ones. */
  ghost predicate Matching(list: seq<nat>, tiles: seq<Tile>, h: Headers, t: nat, i: nat)
    requires t < |tiles|
  {
    && list != [] && i <= |list|
    && Linked(h, Pred(list, i), tiles[t].addr)
    && h.ptr[Pred(list, i)] == list[if i < |list| then i else 0]
    && (JoinsDown(list, h.size, i, tiles[t].addr) <==> FreeBelow(tiles, t))
    && (JoinsUp(list, h.size, i, tiles[t].addr) <==> FreeAbove(tiles, t))
    && (FreeBelow(tiles, t) ==> i > 0 && list[i - 1] == tiles[t - 1].addr)
    && (FreeAbove(tiles, t) ==> i < |list| && list[i] == tiles[t + 1].addr)
  }

  lemma IsMatching(list: seq<nat>, tiles: seq<Tile>, h: Headers, base: nat, lo: nat, hi: nat, t: nat, i: nat)
    requires Freeing(list, tiles, h, base, lo, hi, t, i)
    ensures Matching(list, tiles, h, t, i)
  {
    DownIsBelow(list, tiles, h, base, lo, hi, t, i);
    UpIsAbove(list, tiles, h, base, lo, hi, t, i);
    var n := |list|;
    assert Points(list, h.ptr, if i > 0 then i - 1 else n - 1);
    assert Points(list, h.ptr, if i < n then i else 0);
  }

  /** The free blocks after the release, by address. */
  lemma ReleaseFree(tiles: seq<Tile>, lo: nat, hi: nat, t: nat, x: nat)
    requires Tiled(tiles, lo, hi) && t < |tiles| && !tiles[t].free
    ensures FreeAt(Release(tiles, t), x) <==>
        x == tiles[Lowest(tiles, t)].addr || (FreeAt(tiles, x) && !(FreeAbove(tiles, t) && x == tiles[t + 1].addr))
  {
    var r, m := Release(tiles, t), Merged(tiles, t);
    ReleaseTiled(tiles, lo, hi, t);
    JoinedAre(tiles, t);
    assert m in r;
    if FreeAbove(tiles, t) && x == tiles[t + 1].addr {
      NotReleased(tiles, lo, hi, t, x);
      hide Tiled, Release;
      assert tiles[Lowest(tiles, t)].addr != x;
    } else if x != tiles[Lowest(tiles, t)].addr {
      hide Tiled, Release;
      forall b | b in tiles && b.free && b.addr == x
        ensures b in r
      {
      }
    }
  }

  /** The blocks that become one: block `t` and its free neighbours. */
  lemma JoinedAre(tiles: seq<Tile>, t: nat)
    requires t < |tiles|
    ensures forall b :: b in tiles[Lowest(tiles, t)..Past(tiles, t)] <==>
        b == tiles[t] || (FreeBelow(tiles, t) && b == tiles[t - 1]) || (FreeAbove(tiles, t) && b == tiles[t + 1])
  {
    var a, c := Lowest(tiles, t), Past(tiles, t);
    assert tiles[a..c][t - a] == tiles[t];
    assert FreeBelow(tiles, t) ==> tiles[a..c][0] == tiles[t - 1];
    assert FreeAbove(tiles, t) ==> tiles[a..c][t + 1 - a] == tiles[t + 1];
  }

  /** The block above, once joined, is no block any more. */
  lemma NotReleased(tiles: seq<Tile>, lo: nat, hi: nat, t: nat, x: nat)
    requires Tiled(tiles, lo, hi) && t < |tiles| && FreeAbove(tiles, t) && x == tiles[t + 1].addr
    ensures forall b :: b in Release(tiles, t) ==> b.addr != x
    ensures tiles[Lowest(tiles, t)].addr != x
  {
    var r := Release(tiles, t);
    ReleaseTiled(tiles, lo, hi, t);
    JoinedAre(tiles, t);
    assert tiles[Lowest(tiles, t)].addr < tiles[t + 1].addr;
    hide Release;
    forall b | b in r
      ensures b.addr != x
    {
      if b != Merged(tiles, t) && b.addr == x {
        SameHeader(tiles, lo, hi, b, tiles[t + 1]);
      }
    }
  }

  lemma ReleaseLists(list: seq<nat>, tiles: seq<Tile>, h: Headers, base: nat, lo: nat, hi: nat, t: nat, i: nat)
    requires Freeing(list, tiles, h, base, lo, hi, t, i) && Matching(list, tiles, h, t, i)
    ensures Lists(Linked'(list, h.size, i, tiles[t].addr), Release(tiles, t), base)
  {
    var bp := tiles[t].addr;
    var l, r := Linked'(list, h.size, i, bp), Release(tiles, t);
    OrderedNoDup(list, h.size);
    LinkedMembers(list, h.size, i, bp);
    TilesWithin(tiles, lo, hi, t);
    if FreeBelow(tiles, t) {
      FreeIsListed(list, tiles, base, tiles[t - 1]);
    }
    if FreeAbove(tiles, t) {
      TilesWithin(tiles, lo, hi, t + 1);
    }
    hide Ring, Fits, Linked', Release, FreeAt;
    forall x
      ensures x in l <==> x == base || FreeAt(r, x)
    {
      ReleaseFree(tiles, lo, hi, t, x);
    }
  }

  lemma LinkedMembers(list: seq<nat>, size: map<nat, nat>, i: nat, bp: nat)
    requires Fits(list, size, i, bp) && list != [] && NoDup(list)
    ensures forall x :: x in Linked'(list, size, i, bp) <==>
      (x in list && !(JoinsUp(list, size, i, bp) && x == list[i])) || (!JoinsDown(list, size, i, bp) && x == bp)
  {
    var up := JoinsUp(list, size, i, bp);
    CutMembers(list, i, if up then i + 1 else i);
    var x, y, mid := list[..i], list[(if up then i + 1 else i)..], if JoinsDown(list, size, i, bp) then [] else [bp];
    assert Linked'(list, size, i, bp) == x + mid + y;
    hide Fits, NoDup, Linked';
  }

  /** Cutting out at most one member leaves the others. */
  lemma CutMembers(list: seq<nat>, i: nat, c: nat)
    requires NoDup(list) && i <= |list| && (c == i || (c == i + 1 && c <= |list|))
    ensures forall x :: x in list[..i] || x in list[c..] <==> x in list && !(c == i + 1 && x == list[i])
  {
    forall x | x in list
      ensures x in list[..i] || x in list[c..] <==> !(c == i + 1 && x == list[i])
    {
      var k :| 0 <= k < |list| && list[k] == x;
      assert k < i ==> x == list[..i][k];
      assert c <= k ==> x == list[c..][k - c];
    }
  }

  /** free keeps the heap: blocks tile the arena, headers hold sizes, the list is right. */
  lemma FreeHeap(list: seq<nat>, tiles: seq<Tile>, h: Headers, base: nat, lo: nat, hi: nat, t: nat, i: nat)
    requires Freeing(list, tiles, h, base, lo, hi, t, i)
    ensures Linked(h, Pred(list, i), tiles[t].addr) && list != []
    ensures var h' := Link(h, Pred(list, i), tiles[t].addr);
      Heap(Linked'(list, h.size, i, tiles[t].addr), Release(tiles, t), h'.ptr, h'.size, base, lo, hi)
  {
    IsMatching(list, tiles, h, base, lo, hi, t, i);
    ReleaseTiled(tiles, lo, hi, t);
    ReleaseSized(list, tiles, h, base, lo, hi, t, i);
    ReleaseLists(list, tiles, h, base, lo, hi, t, i);
    if FreeBelow(tiles, t) || FreeAbove(tiles, t) {
      AtLeastTwo(list, tiles, h, base, lo, hi, t, i);
    }
    LinkRing(list, h, i, tiles[t].addr);
    BaseKept(list, tiles, h, base, lo, hi, t, i);
  }

  lemma AtLeastTwo(list: seq<nat>, tiles: seq<Tile>, h: Headers, base: nat, lo: nat, hi: nat, t: nat, i: nat)
    requires Freeing(list, tiles, h, base, lo, hi, t, i) && Matching(list, tiles, h, t, i)
    requires FreeBelow(tiles, t) || FreeAbove(tiles, t)
    ensures |list| >= 2
  {
    var b := if FreeBelow(tiles, t) then tiles[t - 1] else tiles[t + 1];
    FreeIsListed(list, tiles, base, b);
    TilesWithin(tiles, lo, hi, if FreeBelow(tiles, t) then t - 1 else t + 1);
    assert base in list;
  }

  lemma BaseKept(list: seq<nat>, tiles: seq<Tile>, h: Headers, base: nat, lo: nat, hi: nat, t: nat, i: nat)
    requires Freeing(list, tiles, h, base, lo, hi, t, i) && Matching(list, tiles, h, t, i)
    ensures var size := Link(h, Pred(list, i), tiles[t].addr).size; base in size && size[base] == 0
  {
    TilesWithin(tiles, lo, hi, t);
  }
}
