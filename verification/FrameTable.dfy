/**
 Bit fields over bytes, as both the frame table and the swap slot map use them.
 */
module Bitfield {

  function Mask(k: nat): bv8
    requires k < 8
  {
    (1 as bv8) << k
  }

  lemma Masks(k: nat)
    requires k < 8
    ensures Mask(k) == [1, 2, 4, 8, 16, 32, 64, 128][k]
  {
    if k == 0 {} else if k == 1 {} else if k == 2 {} else if k == 3 {}
    else if k == 4 {} else if k == 5 {} else if k == 6 {} else {}
  }

  /** The masks of different bits have no bit in common, so setting or clearing one leaves the others. */
  lemma MaskBits(b: bv8, i: nat, j: nat)
    requires i < 8 && j < 8
    ensures (b | Mask(i)) & Mask(j) != 0 <==> i == j || b & Mask(j) != 0
    ensures b & !Mask(i) & Mask(j) != 0 <==> i != j && b & Mask(j) != 0
  {
    Masks(i);
    Masks(j);
  }

  /** bitfield_get. */
  predicate Get(bits: seq<bv8>, n: nat)
    requires n / 8 < |bits|
  {
    bits[n / 8] & Mask(n % 8) != 0
  }

  /** bitfield_set: bit `n` becomes `value`, no other bit changes. */
  method Set(bits: array<bv8>, n: nat, value: bool)
    requires n / 8 < bits.Length
    modifies bits
    ensures forall m: nat :: m / 8 < bits.Length ==> Get(bits[..], m) == if m == n then value else old(Get(bits[..], m))
  {
    var k, mask := n / 8, Mask(n % 8);
    var byte := bits[k];
    bits[k] := if value then byte | mask else byte & !mask;
    forall m: nat | m / 8 < bits.Length
      ensures Get(bits[..], m) == if m == n then value else old(Get(bits[..], m))
    {
      MaskBits(byte, n % 8, m % 8);
    }
  }
}

/**
 The frame table: a stack of free frames in an array, shadowed by one bit for
 each frame.
 */
module FrameTable {
  import opened Seqs
  import opened PagingState
  import PagingOps
  import Bitfield

  lemma {:induction false} DropOne(q: seq<int>, x: int)
    requires NoDup(q) && x in q
    ensures |Without(q, {x})| == |q| - 1
  {
    if q[0] == x {
      WithoutNothing(q[1..], {x});
    } else {
      DropOne(q[1..], x);
    }
  }

  /** A duplicate-free sequence of numbers below `n` has at most `n` elements. */
  lemma {:induction false} Pigeonhole(q: seq<int>, n: nat)
    requires NoDup(q) && forall x :: x in q ==> 0 <= x < n
    ensures |q| <= n
    decreases n
  {
    if q != [] {
      assert q[0] in q;
      assert 0 <= q[0] < n;
      if n - 1 in q {
        WithoutNoDup(q, {n - 1});
        DropOne(q, n - 1);
        Pigeonhole(Without(q, {n - 1}), n - 1);
      } else {
        Pigeonhole(q, n - 1);
      }
    }
  }

  /** Distinct frames of the range start..end are at most as many as the range has. */
  lemma FramesBounded(q: seq<int>, start: nat, end: nat)
    requires start % PAGESIZE == 0 && end % PAGESIZE == 0 && start <= end
    requires NoDup(q) && forall f :: f in q ==> start <= f < end && f % PAGESIZE == 0
    ensures |q| <= (end - start) / PAGESIZE
  {
    var p := seq(|q|, i requires 0 <= i < |q| => q[i] / PAGESIZE - start / PAGESIZE);
    forall i, j | 0 <= i < j < |q|
      ensures p[i] != p[j]
    {
      assert q[i] in q && q[j] in q;
    }
    forall x | x in p
      ensures 0 <= x < (end - start) / PAGESIZE
    {
      var i :| 0 <= i < |p| && p[i] == x;
      assert q[i] in q;
    }
    Pigeonhole(p, (end - start) / PAGESIZE);
  }

  predicate IsFrame(start: nat, end: nat, f: nat) {
    start <= f < end && f % PAGESIZE == 0
  }

  predicate Range(start: nat, end: nat) {
    PAGESIZE <= start <= end && start % PAGESIZE == 0 && end % PAGESIZE == 0
  }

  function Index(start: nat, f: nat): nat
    requires start <= f
  {
    (f - start) / PAGESIZE
  }

  /** The stack has no duplicates and holds exactly the valid frames whose bit is 0. */
  ghost predicate Agree(start: nat, end: nat, q: seq<Frame>, bits: seq<bv8>) {
    && Range(start, end) && |bits| == (end - start) / PAGESIZE / 8 + 1
    && NoDup(q)
    && (forall f :: f in q ==> IsFrame(start, end, f))
    && (forall f :: IsFrame(start, end, f) ==> (Bitfield.Get(bits, Index(start, f)) <==> f !in q))
  }

  lemma IndexBounds(start: nat, end: nat, f: nat)
    requires Range(start, end) && IsFrame(start, end, f)
    ensures Index(start, f) < (end - start) / PAGESIZE && Index(start, f) / 8 < (end - start) / PAGESIZE / 8 + 1
    ensures forall g :: IsFrame(start, end, g) && Index(start, g) == Index(start, f) ==> g == f
  {
    assert start == start / PAGESIZE * PAGESIZE;
  }

  /** `bits'` is `bits` with the bit of frame `f` changed to `value`. */
  ghost predicate Flipped(start: nat, end: nat, bits: seq<bv8>, bits': seq<bv8>, f: nat, value: bool)
    requires Range(start, end) && IsFrame(start, end, f)
  {
    && |bits| == |bits'| == (end - start) / PAGESIZE / 8 + 1
    && forall m: nat :: m / 8 < |bits| ==>
         Bitfield.Get(bits', m) == if m == Index(start, f) then value else Bitfield.Get(bits, m)
  }

  lemma PopAgrees(start: nat, end: nat, q: seq<Frame>, bits: seq<bv8>, bits': seq<bv8>)
    requires Agree(start, end, q, bits) && q != [] && PagingOps.Top(q) in q
    requires Flipped(start, end, bits, bits', PagingOps.Top(q), true)
    ensures Agree(start, end, q[..|q| - 1], bits')
  {
    var f, q' := PagingOps.Top(q), q[..|q| - 1];
    assert q == q' + [f];
    forall g | IsFrame(start, end, g)
      ensures Bitfield.Get(bits', Index(start, g)) <==> g !in q'
    {
      IndexBounds(start, end, g);
    }
  }

  lemma PushAgrees(start: nat, end: nat, q: seq<Frame>, bits: seq<bv8>, bits': seq<bv8>, f: Frame)
    requires Agree(start, end, q, bits) && IsFrame(start, end, f) && f !in q
    requires Flipped(start, end, bits, bits', f, false)
    ensures Agree(start, end, q + [f], bits')
  {
    AppendNoDup(q, f);
    forall g | IsFrame(start, end, g)
      ensures Bitfield.Get(bits', Index(start, g)) <==> g !in q + [f]
    {
      IndexBounds(start, end, g);
    }
  }

  class Table {
    var start: nat
    var end: nat
    var stack: array<nat>
    var count: nat
    var bits: array<bv8>

    ghost predicate Valid()
      reads this, stack, bits
    {
      && (stack as object) != (bits as object)
      && Range(start, end) && stack.Length == (end - start) / PAGESIZE && count <= stack.Length
      && Agree(start, end, stack[..count], bits[..])
    }

    /** The free frames, the next one to be allocated last. */
    ghost function FreeStack(): seq<Frame>
      reads this, stack
      requires count <= stack.Length
    {
      stack[..count]
    }

    /** frame_init: all frames on the stack, the lowest on top. */
    constructor (low: nat, high: nat)
      requires Range(low, high) && low < high
      ensures Valid() && start == low && end == high && fresh(stack) && fresh(bits)
      ensures |FreeStack()| == (high - low) / PAGESIZE
      ensures forall i :: 0 <= i < count ==> FreeStack()[i] == high - (i + 1) * PAGESIZE
    {
      start, end := low, high;
      var n := (high - low) / PAGESIZE;
      stack := new nat[n];
      bits := new bv8[n / 8 + 1];
      count := 0;
      new;
      var f := high - PAGESIZE;
      while f >= low
        invariant start == low && end == high && stack.Length == n && bits.Length == n / 8 + 1
        invariant count <= n && f == high - (count + 1) * PAGESIZE
        invariant forall i :: 0 <= i < count ==> stack[i] == high - (i + 1) * PAGESIZE
        invariant forall i: nat :: n - count <= i < n ==> !Bitfield.Get(bits[..], i)
        invariant fresh(stack) && fresh(bits) && (stack as object) != (bits as object)
        decreases f - low + PAGESIZE
      {
        Bitfield.Set(bits, (f - low) / PAGESIZE, false);
        stack[count] := f;
        count := count + 1;
        f := f - PAGESIZE;
      }
      AllFree(low, high, stack[..count], bits[..]);
    }

    /** frame_alloc: 0 if no frame is free, otherwise a frame whose bit was 0 and now is 1. */
    method Alloc() returns (f: Frame)
      requires Valid()
      modifies this`count, bits
      ensures Valid() && start == old(start) && end == old(end)
      ensures if old(FreeStack()) == [] then f == 0 && FreeStack() == []
              else f == PagingOps.Top(old(FreeStack())) && FreeStack() == old(FreeStack())[..old(count) - 1] && f != 0
    {
      hide Agree;
      if count == 0 {
        return 0;
      }
      ghost var q, b := stack[..count], bits[..];
      TopValid(start, end, q, b);
      count := count - 1;
      f := stack[count];
      IndexBounds(start, end, f);
      Bitfield.Set(bits, Index(start, f), true);
      PopAgrees(start, end, q, b, bits[..]);
      assert stack[..count] == q[..|q| - 1];
    }

    /** frame_free: the frame is pushed, unless it is free already. */
    method Free(f: Frame)
      requires Valid() && IsFrame(start, end, f)
      modifies this`count, stack, bits
      ensures Valid() && start == old(start) && end == old(end)
      ensures FreeStack() == PagingOps.FrameFree(old(FreeStack()), f)
    {
      hide Agree;
      ghost var q, b := stack[..count], bits[..];
      BitMeans(start, end, q, b, f);
      if Bitfield.Get(bits[..], Index(start, f)) {
        FramesBounded(q + [f], start, end);
        stack[count] := f;
        count := count + 1;
        Bitfield.Set(bits, Index(start, f), false);
        PushAgrees(start, end, q, b, bits[..], f);
        assert stack[..count] == q + [f];
      }
    }
  }

  lemma TopValid(start: nat, end: nat, q: seq<Frame>, bits: seq<bv8>)
    requires Agree(start, end, q, bits) && q != []
    ensures PagingOps.Top(q) in q && IsFrame(start, end, PagingOps.Top(q)) && |bits| == (end - start) / PAGESIZE / 8 + 1
  {
  }

  /** The bit of a valid frame tells whether it is allocated, and a free place for it is left. */
  lemma BitMeans(start: nat, end: nat, q: seq<Frame>, bits: seq<bv8>, f: Frame)
    requires Agree(start, end, q, bits) && IsFrame(start, end, f)
    ensures |bits| == (end - start) / PAGESIZE / 8 + 1 && Index(start, f) / 8 < |bits|
    ensures Bitfield.Get(bits, Index(start, f)) <==> f !in q
    ensures f !in q ==> NoDup(q + [f]) && forall g :: g in q + [f] ==> IsFrame(start, end, g)
  {
    IndexBounds(start, end, f);
  }

  /** After frame_init the stack holds every frame, and every bit is 0. */
  lemma AllFree(start: nat, end: nat, q: seq<Frame>, bits: seq<bv8>)
    requires Range(start, end) && |q| == (end - start) / PAGESIZE && |bits| == |q| / 8 + 1
    requires forall i :: 0 <= i < |q| ==> q[i] == end - (i + 1) * PAGESIZE
    requires forall i: nat :: i < |q| ==> !Bitfield.Get(bits, i)
    ensures Agree(start, end, q, bits)
  {
    forall f | IsFrame(start, end, f)
      ensures f in q && !Bitfield.Get(bits, Index(start, f))
    {
      IndexBounds(start, end, f);
      var i := (end - f) / PAGESIZE - 1;
      assert q[i] == f;
    }
  }
}
