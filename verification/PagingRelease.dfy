/**
 What deleting and starting a process give back: frames, slots, entries and items,
 and nothing of any other process. Over all steps a slot of the swap file is lost in
 one way only.
 */
module PagingRelease {
  import opened Seqs
  import opened PagingState
  import opened PagingOps
  import opened PagingDelete
  import opened PagingAnswer

  // ------------------------------------------------------------- a range

  /** Slot `x` is given up with the range: it is that of a swapped page or of an active item. */
  ghost predicate SlotGoes(s: Sys, t: Tid, lo: nat, hi: nat, x: Slot) {
    || (exists p :: Within(p, t, lo, hi) && SwappedTo(s.pt, p, x))
    || (exists id :: id in s.active && id in s.items && Within(s.items[id].page, t, lo, hi) && OwnsSlot(s.items, id, x))
  }

  ghost predicate FrameGoes(s: Sys, t: Tid, lo: nat, hi: nat, f: Frame) {
    exists p :: Within(p, t, lo, hi) && ResidentAt(s.pt, p, f)
  }

  lemma RangeFrames(s: Sys, t: Tid, lo: nat, hi: nat, all: bool, f: Frame)
    ensures f in FreeRange(s, t, lo, hi, all).free <==> f in s.free || FrameGoes(s, t, lo, hi, f)
  {
    FreeFramesExact(s.free, s.pt, t, lo, hi, f);
    if FrameGoes(s, t, lo, hi, f) {
      var p :| Within(p, t, lo, hi) && ResidentAt(s.pt, p, f);
      assert p == Page(t, p.vpn);
    }
    hide FreeFrames, Cleared, SlotsWithin, Without;
  }

  lemma RangeSlots(s: Sys, t: Tid, lo: nat, hi: nat, all: bool, x: Slot)
    ensures x in FreeRange(s, t, lo, hi, all).used <==> x in s.used && !SlotGoes(s, t, lo, hi, x)
  {
    hide FreeFrames, Cleared, Without;
    assert x in SwappedSlots(s.pt, t, lo, hi) <==> exists p :: Within(p, t, lo, hi) && SwappedTo(s.pt, p, x);
    assert x in ItemSlots(s.items, ActiveWithin(s, t, lo, hi)) <==>
      exists id :: id in s.active && id in s.items && Within(s.items[id].page, t, lo, hi) && OwnsSlot(s.items, id, x);
  }

  /** Pages outside the range keep their entries, and all mappings stay. */
  lemma RangePages(s: Sys, t: Tid, lo: nat, hi: nat, all: bool, p: Page)
    ensures var r := FreeRange(s, t, lo, hi, all);
      if Within(p, t, lo, hi) then p !in r.pt && (p in r.hw <==> p in s.hw) else Untouched(s, r, p)
    ensures var r := FreeRange(s, t, lo, hi, all); r.hw == s.hw
  {
    hide FreeFrames, SlotsWithin, Without;
  }

  /** Idle items of the range are freed; items in flight stay, marked if their page is in the range. */
  lemma RangeItems(s: Sys, t: Tid, lo: nat, hi: nat, all: bool, id: Id)
    requires QueuesOk(s.items, s.active, s.swapping)
    ensures var r := FreeRange(s, t, lo, hi, all);
      && (id in r.items <==> id in s.items && (id in s.active ==> !Within(s.items[id].page, t, lo, hi)))
      && (id in r.items && !Within(s.items[id].page, t, lo, hi) ==> KeptBut(s, r, id, t))
      && (id in r.items && Within(s.items[id].page, t, lo, hi) ==>
           r.items[id].deleted && r.items[id].slot == s.items[id].slot)
  {
    hide FreeFrames, Cleared, SlotsWithin, Without;
  }

  /** Item `id` is as it was, but may no longer name thread `t` as its initiator. */
  predicate KeptBut(s: Sys, r: Sys, id: Id, t: Tid) {
    && id in s.items && id in r.items
    && (r.items[id] == s.items[id] ||
         (s.items[id].initiator == Some(t) && r.items[id] == s.items[id].(initiator := None)))
  }

  lemma RangeRest(s: Sys, t: Tid, lo: nat, hi: nat, all: bool)
    ensures var r := FreeRange(s, t, lo, hi, all);
      && r.procs == s.procs && r.blocked == s.blocked && r.mem == s.mem && r.file == s.file
      && r.puts == s.puts && r.gets == s.gets && r.swapping == s.swapping
  {
    hide FreeFrames, Cleared, SlotsWithin, Without;
  }

  // ------------------------------------------------------ deletion and start

  /** What is gone after freeing range lo..hi of `t` in state `s`, and what is still there. */
  ghost predicate Released(s: Sys, r: Sys, t: Tid, lo: nat, hi: nat) {
    && (forall p :: Within(p, t, lo, hi) ==> p !in r.pt)
    && (forall p :: !Within(p, t, lo, hi) ==> (p in r.pt <==> p in s.pt) && (p in s.pt ==> r.pt[p] == s.pt[p]))
    && (forall f :: f in r.free <==> f in s.free || FrameGoes(s, t, lo, hi, f))
    && (forall x :: x in r.used <==> x in s.used && !SlotGoes(s, t, lo, hi, x))
    && (forall id :: id in r.items <==> id in s.items && (id in s.active ==> !Within(s.items[id].page, t, lo, hi)))
    && (forall id :: id in r.items && !Within(s.items[id].page, t, lo, hi) ==> KeptBut(s, r, id, t))
    && (forall id :: id in r.items && Within(s.items[id].page, t, lo, hi) ==> r.items[id].deleted)
    && r.mem == s.mem && r.file == s.file && r.puts == s.puts && r.gets == s.gets
  }

  lemma RangeReleases(s: Sys, t: Tid, lo: nat, hi: nat, all: bool)
    requires QueuesOk(s.items, s.active, s.swapping)
    ensures Released(s, FreeRange(s, t, lo, hi, all), t, lo, hi)
  {
    hide FreeRange, QueuesOk, FrameGoes, SlotGoes, KeptBut, Within;
    var r := FreeRange(s, t, lo, hi, all);
    forall p: Page
      ensures if Within(p, t, lo, hi) then p !in r.pt else Untouched(s, r, p)
    {
      RangePages(s, t, lo, hi, all, p);
    }
    forall f
      ensures f in r.free <==> f in s.free || FrameGoes(s, t, lo, hi, f)
    {
      RangeFrames(s, t, lo, hi, all, f);
    }
    forall x
      ensures x in r.used <==> x in s.used && !SlotGoes(s, t, lo, hi, x)
    {
      RangeSlots(s, t, lo, hi, all, x);
    }
    forall id
      ensures id in r.items <==> id in s.items && (id in s.active ==> !Within(s.items[id].page, t, lo, hi))
      ensures id in r.items && !Within(s.items[id].page, t, lo, hi) ==> KeptBut(s, r, id, t)
      ensures id in r.items && Within(s.items[id].page, t, lo, hi) ==> r.items[id].deleted
    {
      RangeItems(s, t, lo, hi, all, id);
    }
    RangeRest(s, t, lo, hi, all);
  }

  /** Unmapping first changes nothing that is released. */
  lemma UnmapReleases(s: Sys, t: Tid, top: nat, r: Sys, lo: nat, hi: nat)
    requires Released(UnmapRange(s, t, 0, top), r, t, lo, hi)
    ensures Released(s, r, t, lo, hi)
  {
    var u := UnmapRange(s, t, 0, top);
    hide Within, ResidentAt, SwappedTo, OwnsSlot;
    assert u.pt == s.pt && u.items == s.items && u.free == s.free && u.used == s.used && u.active == s.active;
    assert forall f :: FrameGoes(u, t, lo, hi, f) <==> FrameGoes(s, t, lo, hi, f);
    assert forall x :: SlotGoes(u, t, lo, hi, x) <==> SlotGoes(s, t, lo, hi, x);
    hide UnmapRange, FrameGoes, SlotGoes;
  }

  /**
   Deletion takes away all pages, frames, slots and idle items of the process, marks its items in
   flight, and leaves the pages, mappings and items of every other process alone.
   */
  lemma DeleteReleases(s: Sys, t: Tid)
    requires Inv(s)
    ensures var d := Delete(s, t);
      && Released(s, d, t, 0, ALL_PAGES)
      && d.procs == s.procs - {t} && d.blocked == s.blocked - {t}
      && (forall p: Page :: p.tid != t ==> Untouched(s, d, p))
      && (forall p: Page :: p.tid == t ==> p !in d.pt && (p in d.hw <==> p in s.hw && p.vpn == STACK_TOP_VPN))
  {
    var u := UnmapRange(s, t, 0, STACK_TOP_VPN);
    Unmapped(s, t);
    assert QueuesOk(u.items, u.active, u.swapping);
    hide Inv, QueuesOk, UnmapRange, FreeRange;
    var r := FreeRange(u, t, 0, ALL_PAGES, true);
    RangeReleases(u, t, 0, ALL_PAGES, true);
    UnmapReleases(s, t, STACK_TOP_VPN, r, 0, ALL_PAGES);
    RangeRest(u, t, 0, ALL_PAGES, true);
    RangePages(u, t, 0, ALL_PAGES, true, Page(t, 0));
    SameReleased(s, r, Delete(s, t), t, 0, ALL_PAGES);
    hide Released;
    assert forall p: Page :: p.tid == t && p in s.pt ==> Within(p, t, 0, ALL_PAGES);
    forall p: Page
      ensures p.tid != t ==> Untouched(s, Delete(s, t), p)
      ensures p.tid == t ==> p !in Delete(s, t).pt
    {
      RangePages(u, t, 0, ALL_PAGES, true, p);
    }
  }

  lemma SameReleased(s: Sys, r: Sys, r': Sys, t: Tid, lo: nat, hi: nat)
    requires Released(s, r, t, lo, hi) && r' == r.(procs := r'.procs, blocked := r'.blocked)
    ensures Released(s, r', t, lo, hi)
  {
    hide FrameGoes, SlotGoes, Within;
  }

  /** All mappings of the process go but that of the page at STACK_TOP. */
  lemma Unmapped(s: Sys, t: Tid)
    requires Inv(s)
    ensures var u := UnmapRange(s, t, 0, STACK_TOP_VPN);
      && u == s.(hw := u.hw)
      && (forall p :: p in u.hw <==> p in s.hw && (p.tid == t ==> p.vpn == STACK_TOP_VPN))
      && (forall p :: p in u.hw ==> u.hw[p] == s.hw[p])
      && (forall p :: p in s.pt ==> p.vpn <= STACK_TOP_VPN)
  {
    hide QueuesOk, FramesOk, SlotsOk, StoresOk, PutsOk, GetsOk, DirtyOk, CleanOk, LeavingOk, ArrivingOk, WaitersOk;
    assert forall p :: p in s.hw ==> ResidentAt(s.pt, p, s.hw[p].frame);
  }

  /** start_process does the same for the loader's heap, unmaps all but STACK_TOP, and keeps the process. */
  lemma StartReleases(s: Sys, t: Tid)
    requires Inv(s)
    ensures var d := Start(s, t);
      && Released(s, d, t, HEAP_START_VPN, HEAP_END_VPN)
      && d.procs == s.procs && d.blocked == s.blocked
      && (forall p: Page :: p.tid != t ==> Untouched(s, d, p))
      && (forall p: Page :: p.tid == t ==> (p in d.hw <==> p in s.hw && p.vpn == STACK_TOP_VPN))
  {
    var u := UnmapRange(s, t, 0, STACK_TOP_VPN);
    Unmapped(s, t);
    assert QueuesOk(u.items, u.active, u.swapping);
    hide Inv, QueuesOk, UnmapRange, FreeRange;
    var r := FreeRange(u, t, HEAP_START_VPN, HEAP_END_VPN, false);
    RangeReleases(u, t, HEAP_START_VPN, HEAP_END_VPN, false);
    UnmapReleases(s, t, STACK_TOP_VPN, r, HEAP_START_VPN, HEAP_END_VPN);
    RangeRest(u, t, HEAP_START_VPN, HEAP_END_VPN, false);
    RangePages(u, t, HEAP_START_VPN, HEAP_END_VPN, false, Page(t, 0));
    hide Released;
    forall p: Page
      ensures p.tid != t ==> Untouched(s, Start(s, t), p)
    {
      RangePages(u, t, HEAP_START_VPN, HEAP_END_VPN, false, p);
    }
  }
}
