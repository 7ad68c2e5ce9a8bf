/**
 The two-level page table of a process and the words stored in it: the map from
 page numbers to entries that the paging model works on is what these arrays hold.
 */
module PageTable {
  import opened Seqs
  import PagingState

  const ADDRESSES: nat := 0x1_0000_0000
  const FIRST_LEVEL_ENTRIES: nat := 4096
  const SECOND_LEVEL_ENTRIES: nat := 256
  const PAGESIZE: nat := 4096
  const PAGES: nat := FIRST_LEVEL_ENTRIES * SECOND_LEVEL_ENTRIES

  // ------------------------------------------------------------------ words

  predicate IsSwapped(w: bv32) { w & 0x1 != 0 }
  predicate IsDirty(w: bv32) { w & 0x2 != 0 }
  function ClearLowerBits(w: bv32): bv32 { w & 0xFFFF_F000 }
  function MarkDirty(w: bv32): bv32 { w | 0x2 }
  function MarkSwapped(location: bv32): bv32 { location | 0x1 }

  /** The entry a word stands for. */
  function Decode(w: bv32): Option<PagingState.Pte> {
    if w == 0 then None
    else if IsSwapped(w) then Some(PagingState.Swapped(ClearLowerBits(w) as nat / PAGESIZE))
    else Some(PagingState.Resident(ClearLowerBits(w) as nat, IsDirty(w)))
  }

  /** Marking dirty keeps the frame, and the frame is recovered without the mark. */
  lemma DirtyWord(w: bv32)
    requires w != 0 && !IsSwapped(w)
    ensures Decode(MarkDirty(w)) == Some(PagingState.Resident(Decode(w).value.frame, true))
    ensures ClearLowerBits(MarkDirty(w)) == ClearLowerBits(w)
  {
    assert MarkDirty(w) & 0x1 == w & 0x1;
  }

  /** Every aligned swap location, the first one included, is told apart from an untouched page and from a frame. */
  lemma SwappedWord(location: bv32)
    requires ClearLowerBits(location) == location
    ensures Decode(MarkSwapped(location)) == Some(PagingState.Swapped(location as nat / PAGESIZE))
    ensures ClearLowerBits(MarkSwapped(location)) == location
  {
    var w := MarkSwapped(location);
    assert w & 0x1 == 0x1 && w != 0;
  }

  /** A frame address stored as it comes from the allocator is a clean resident entry. */
  lemma FrameWord(frame: bv32)
    requires ClearLowerBits(frame) == frame && frame != 0
    ensures Decode(frame) == Some(PagingState.Resident(frame as nat, false))
    ensures ClearLowerBits(frame) == frame
  {
    assert frame & 0x1 == 0 && frame & 0x2 == 0;
  }

  // ---------------------------------------------------------------- indices

  function FirstLevelIndex(addr: nat): (i: nat)
    requires addr < ADDRESSES
    ensures i < FIRST_LEVEL_ENTRIES
  {
    addr / 0x10_0000
  }

  function SecondLevelIndex(addr: nat): (j: nat)
    ensures j < SECOND_LEVEL_ENTRIES
  {
    addr % 0x10_0000 / 0x1000
  }

  function CreateVirtualAddress(first: nat, second: nat): nat {
    first * 0x10_0000 + second * 0x1000
  }

  /** Pages and pairs of indices correspond one to one. */
  lemma IndicesOfPage(addr: nat)
    requires addr < ADDRESSES
    ensures CreateVirtualAddress(FirstLevelIndex(addr), SecondLevelIndex(addr)) == addr - addr % PAGESIZE
    ensures FirstLevelIndex(addr) * SECOND_LEVEL_ENTRIES + SecondLevelIndex(addr) == addr / PAGESIZE
  {
  }

  lemma PageOfIndices(i: nat, j: nat)
    requires i < FIRST_LEVEL_ENTRIES && j < SECOND_LEVEL_ENTRIES
    ensures CreateVirtualAddress(i, j) < ADDRESSES
    ensures FirstLevelIndex(CreateVirtualAddress(i, j)) == i && SecondLevelIndex(CreateVirtualAddress(i, j)) == j
  {
    var a := CreateVirtualAddress(i, j);
    assert a == i * 0x10_0000 + j * 0x1000 && j * 0x1000 < 0x10_0000;
    assert a / 0x10_0000 == i && a % 0x10_0000 == j * 0x1000;
  }

  // ---------------------------------------------------------------- the table

  class Directory {
    const first: array<array?<bv32>>

    ghost predicate Valid()
      reads this, first
    {
      && first.Length == FIRST_LEVEL_ENTRIES
      && (forall i :: 0 <= i < FIRST_LEVEL_ENTRIES && first[i] != null ==> first[i].Length == SECOND_LEVEL_ENTRIES)
      && (forall i, j :: 0 <= i < j < FIRST_LEVEL_ENTRIES && first[i] != null ==> first[i] != first[j])
      && (forall i :: 0 <= i < FIRST_LEVEL_ENTRIES && first[i] != null ==> (first[i] as object) != first)
    }

    ghost function Tables(): set<object>
      reads this, first
    {
      set i | 0 <= i < first.Length && first[i] != null :: first[i] as object
    }

    /** The word of page `vpn`; a page without a second-level table has none yet, which reads as zero. */
    ghost function WordAt(vpn: nat): bv32
      requires Valid() && vpn < PAGES
      reads this, first, Tables()
    {
      var t := first[vpn / SECOND_LEVEL_ENTRIES];
      if t == null then 0 else t[vpn % SECOND_LEVEL_ENTRIES]
    }

    constructor ()
      ensures Valid() && fresh(first) && forall vpn :: 0 <= vpn < PAGES ==> WordAt(vpn) == 0
    {
      first := new array?<bv32>[FIRST_LEVEL_ENTRIES](_ => null);
    }

    method Lookup(addr: nat) returns (w: bv32)
      requires Valid() && addr < ADDRESSES
      ensures w == WordAt(addr / PAGESIZE)
    {
      IndicesOfPage(addr);
      var t := first[FirstLevelIndex(addr)];
      w := if t == null then 0 else t[SecondLevelIndex(addr)];
    }

    /** Creates the second-level table when it is missing and writes one entry; no other page changes. */
    method Store(addr: nat, w: bv32)
      requires Valid() && addr < ADDRESSES
      modifies first, Tables()
      ensures Valid() && fresh(Tables() - old(Tables()))
      ensures forall vpn :: 0 <= vpn < PAGES ==> WordAt(vpn) == if vpn == addr / PAGESIZE then w else old(WordAt(vpn))
    {
      IndicesOfPage(addr);
      var i, j := FirstLevelIndex(addr), SecondLevelIndex(addr);
      if first[i] == null {
        var t := new bv32[SECOND_LEVEL_ENTRIES](_ => 0);
        first[i] := t;
      }
      assert first[i] as object in Tables();
      var t := first[i];
      t[j] := w;
      forall vpn | 0 <= vpn < PAGES
        ensures WordAt(vpn) == if vpn == addr / PAGESIZE then w else old(WordAt(vpn))
      {
      }
    }
  }
}
