/**
 Freeing the memory of a process: pager_free_all and pager_free_range with the
 unmapping that precedes them in delete_process and start_process.
 */
module PagingDelete {
  import opened Seqs
  import opened PagingState
  import opened PagingOps

  /** LeavingOk for the pages that are not about to be freed. */
  ghost predicate LeavingOutside(s: Sys, t: Tid, lo: nat, hi: nat) {
    forall id :: Leaving(s, id) && InFrame(s.pt, s.items[id].page) && s.items[id].page !in s.hw
                 && !Within(s.items[id].page, t, lo, hi)
      ==> Sent(s.puts, s.file, s.mem, id, s.items[id].slot, s.pt[s.items[id].page].frame)
  }

  /** The invariant, except for what pages lo..hi of `t` have sent to the swap file. */
  ghost predicate InvOutside(s: Sys, t: Tid, lo: nat, hi: nat) {
    && QueuesOk(s.items, s.active, s.swapping)
    && TablesOk(s.procs, s.pt, s.items)
    && FramesOk(s.frames, s.free, s.pt)
    && MappingsOk(s.hw, s.pt)
    && SlotsOk(s.used, s.pt, s.items)
    && StoresOk(s.frames, s.mem, s.file)
    && PutsOk(s.puts, s.gets, s.items, s.swapping)
    && GetsOk(s.puts, s.gets, s.items, s.swapping)
    && DirtyOk(s) && CleanOk(s) && LeavingOutside(s, t, lo, hi) && ArrivingOk(s)
    && WaitersOk(s.procs, s.blocked, s.items, s.gets)
  }

  // ------------------------------------------------------------ the frames

  lemma ReleaseFrame(frames: set<Frame>, free: seq<Frame>, pt: map<Page, Pte>, p: Page)
    requires FramesOk(frames, free, pt) && InFrame(pt, p)
    ensures FramesOk(frames, FrameFree(free, pt[p].frame), pt - {p})
  {
    var f := pt[p].frame;
    var pt' := pt - {p};
    assert ResidentAt(pt, p, f);
    AppendNoDup(free, f);
    assert forall q, g :: ResidentAt(pt', q, g) <==> ResidentAt(pt, q, g) && q != p;
    forall g | g in frames && g !in free + [f]
      ensures exists q :: ResidentAt(pt', q, g)
    {
      var q :| ResidentAt(pt, q, g);
      assert ResidentAt(pt', q, g);
    }
  }

  lemma DropEntry(frames: set<Frame>, free: seq<Frame>, pt: map<Page, Pte>, p: Page)
    requires FramesOk(frames, free, pt) && !InFrame(pt, p)
    ensures FramesOk(frames, free, pt - {p})
  {
    assert forall q, g :: ResidentAt(pt - {p}, q, g) <==> ResidentAt(pt, q, g);
  }

  /** Freeing the frames of a range and clearing its entries keeps the partition of the frames. */
  lemma {:induction false} FreeFramesOk(frames: set<Frame>, free: seq<Frame>, pt: map<Page, Pte>, t: Tid,
      lo: nat, hi: nat)
    requires FramesOk(frames, free, pt)
    ensures FramesOk(frames, FreeFrames(free, pt, t, lo, hi), Cleared(pt, t, lo, hi))
    decreases hi
  {
    if hi <= lo {
      assert Cleared(pt, t, lo, hi) == pt;
    } else {
      FreeFramesOk(frames, free, pt, t, lo, hi - 1);
      var p := Page(t, hi - 1);
      var rest, pt1 := FreeFrames(free, pt, t, lo, hi - 1), Cleared(pt, t, lo, hi - 1);
      assert Cleared(pt, t, lo, hi) == pt1 - {p};
      if InFrame(pt, p) {
        ReleaseFrame(frames, rest, pt1, p);
      } else {
        DropEntry(frames, rest, pt1, p);
      }
    }
  }

  /** What is free afterwards was free before or held by a page of the range. */
  lemma {:induction false} FreeFramesExact(free: seq<Frame>, pt: map<Page, Pte>, t: Tid, lo: nat, hi: nat, f: Frame)
    ensures f in FreeFrames(free, pt, t, lo, hi) <==>
      f in free || exists v: nat :: lo <= v < hi && ResidentAt(pt, Page(t, v), f)
    decreases hi
  {
    if lo < hi {
      FreeFramesExact(free, pt, t, lo, hi - 1, f);
      assert ResidentAt(pt, Page(t, hi - 1), f) ==> f in FreeFrames(free, pt, t, lo, hi);
    }
  }

  // ------------------------------------------------- items, tables, slots

  /** How the items of `s` and of the state after FreeRange relate. */
  lemma FreedItems(s: Sys, t: Tid, lo: nat, hi: nat, all: bool)
    requires QueuesOk(s.items, s.active, s.swapping)
    ensures var items' := FreeRange(s, t, lo, hi, all).items;
      && (forall i :: i in items' ==>
           i in s.items && items'[i].page == s.items[i].page && items'[i].slot == s.items[i].slot)
      && (forall i :: i in s.swapping ==> i in items')
      && (forall i :: Live(items', i) <==> Live(s.items, i) && !Within(s.items[i].page, t, lo, hi))
      && (forall i :: Live(items', i) && i in s.active ==> items'[i] == s.items[i])
  {
  }

  lemma FreedQueues(s: Sys, t: Tid, lo: nat, hi: nat, all: bool)
    requires QueuesOk(s.items, s.active, s.swapping)
    ensures var s' := FreeRange(s, t, lo, hi, all); QueuesOk(s'.items, s'.active, s'.swapping)
  {
    WithoutNoDup(s.active, ActiveWithin(s, t, lo, hi));
  }

  lemma FreedTables(s: Sys, t: Tid, lo: nat, hi: nat, all: bool)
    requires QueuesOk(s.items, s.active, s.swapping) && TablesOk(s.procs, s.pt, s.items)
    ensures var s' := FreeRange(s, t, lo, hi, all); TablesOk(s.procs, s'.pt, s'.items)
  {
    var s' := FreeRange(s, t, lo, hi, all);
    hide FreeRange, QueuesOk, TablesOk;
    FreedItems(s, t, lo, hi, all);
    FreedPt(s, t, lo, hi, all);
    ClearedTables(s.procs, s.pt, s.items, s'.items, t, lo, hi);
  }

  lemma ClearedTables(procs: set<Tid>, pt: map<Page, Pte>, items: map<Id, Item>, items': map<Id, Item>, t: Tid,
      lo: nat, hi: nat)
    requires TablesOk(procs, pt, items)
    requires forall i :: i in items' ==> i in items && items'[i].page == items[i].page
    requires forall i :: Live(items', i) <==> Live(items, i) && !Within(items[i].page, t, lo, hi)
    ensures TablesOk(procs, Cleared(pt, t, lo, hi), items')
  {
    var pt' := Cleared(pt, t, lo, hi);
    assert forall q :: InFrame(pt', q) <==> InFrame(pt, q) && !Within(q, t, lo, hi);
    forall q | InFrame(pt', q) && q.vpn != IPC_VPN
      ensures exists i :: Holds(items', i, q)
    {
      var i :| Holds(items, i, q);
      assert Holds(items', i, q);
    }
  }

  lemma FreedPt(s: Sys, t: Tid, lo: nat, hi: nat, all: bool)
    ensures FreeRange(s, t, lo, hi, all).pt == Cleared(s.pt, t, lo, hi)
  {
  }

  /** No slot that is released has an owner left, so every owner's slot stays allocated. */
  lemma FreedSlots(s: Sys, t: Tid, lo: nat, hi: nat, all: bool)
    requires QueuesOk(s.items, s.active, s.swapping) && SlotsOk(s.used, s.pt, s.items)
    ensures var s' := FreeRange(s, t, lo, hi, all); SlotsOk(s'.used, s'.pt, s'.items)
  {
    var s' := FreeRange(s, t, lo, hi, all);
    assert forall q, x :: SwappedTo(s'.pt, q, x) <==> SwappedTo(s.pt, q, x) && !Within(q, t, lo, hi);
    forall i, x | OwnsSlot(s'.items, i, x)
      ensures OwnsSlot(s.items, i, x) && x !in SlotsWithin(s, t, lo, hi)
    {
      FreedOwner(s, t, lo, hi, i, x);
    }
    forall q, x | SwappedTo(s'.pt, q, x)
      ensures x !in SlotsWithin(s, t, lo, hi)
    {
      FreedSwapped(s, t, lo, hi, q, x);
    }
    hide SlotsWithin, QueuesOk;
  }

  lemma FreedOwner(s: Sys, t: Tid, lo: nat, hi: nat, i: Id, x: Slot)
    requires SlotsOk(s.used, s.pt, s.items) && OwnsSlot(s.items, i, x) && i !in ActiveWithin(s, t, lo, hi)
    ensures x !in SlotsWithin(s, t, lo, hi)
  {
    if x in SlotsWithin(s, t, lo, hi) {
      if j :| j in ActiveWithin(s, t, lo, hi) && s.items[j].slot == Some(x) {
        assert OwnsSlot(s.items, j, x);
      } else {
        var p :| p in s.pt && Within(p, t, lo, hi) && s.pt[p].Swapped? && s.pt[p].slot == x;
        assert SwappedTo(s.pt, p, x);
      }
    }
  }

  lemma FreedSwapped(s: Sys, t: Tid, lo: nat, hi: nat, q: Page, x: Slot)
    requires SlotsOk(s.used, s.pt, s.items) && SwappedTo(s.pt, q, x) && !Within(q, t, lo, hi)
    ensures x !in SlotsWithin(s, t, lo, hi)
  {
    if x in SlotsWithin(s, t, lo, hi) {
      if j :| j in ActiveWithin(s, t, lo, hi) && s.items[j].slot == Some(x) {
        assert OwnsSlot(s.items, j, x);
      } else {
        var p :| p in s.pt && Within(p, t, lo, hi) && s.pt[p].Swapped? && s.pt[p].slot == x;
        assert SwappedTo(s.pt, p, x);
      }
    }
  }

  /** swap_free is only ever called for a slot that is in use: its assertion cannot fail. */
  lemma SwapFreeAsserts(s: Sys, t: Tid, lo: nat, hi: nat)
    requires Inv(s)
    ensures SlotsWithin(s, t, lo, hi) <= s.used
  {
    hide QueuesOk, TablesOk, FramesOk, MappingsOk, StoresOk, PutsOk, GetsOk, DirtyOk, CleanOk, LeavingOk,
      ArrivingOk, WaitersOk;
    assert forall p :: p in s.pt && s.pt[p].Swapped? ==> SwappedTo(s.pt, p, s.pt[p].slot);
    assert forall id :: id in s.items && s.items[id].slot.Some? ==> OwnsSlot(s.items, id, s.items[id].slot.value);
  }

  lemma FreedFlights(s: Sys, t: Tid, lo: nat, hi: nat, all: bool)
    requires QueuesOk(s.items, s.active, s.swapping)
    requires PutsOk(s.puts, s.gets, s.items, s.swapping) && GetsOk(s.puts, s.gets, s.items, s.swapping)
    ensures var s' := FreeRange(s, t, lo, hi, all); PutsOk(s.puts, s.gets, s'.items, s.swapping)
    ensures var s' := FreeRange(s, t, lo, hi, all); GetsOk(s.puts, s.gets, s'.items, s.swapping)
  {
  }

  lemma FreedContents(s: Sys, t: Tid, lo: nat, hi: nat, all: bool)
    requires QueuesOk(s.items, s.active, s.swapping)
    requires DirtyOk(s) && CleanOk(s) && LeavingOutside(s, t, lo, hi) && ArrivingOk(s)
    ensures var s' := FreeRange(s, t, lo, hi, all); DirtyOk(s') && CleanOk(s') && LeavingOk(s') && ArrivingOk(s')
  {
    hide Saved, Sent, Fetched, QueuesOk, DirtyOk, CleanOk, LeavingOutside, LeavingOk, ArrivingOk, FreeRange;
    FreedItems(s, t, lo, hi, all);
    FreedDirty(s, t, lo, hi, all);
    FreedLeaving(s, t, lo, hi, all);
    FreedArriving(s, t, lo, hi, all);
    FreedClean(s, t, lo, hi, all);
  }

  lemma FreedClean(s: Sys, t: Tid, lo: nat, hi: nat, all: bool)
    requires QueuesOk(s.items, s.active, s.swapping) && CleanOk(s)
    ensures CleanOk(FreeRange(s, t, lo, hi, all))
  {
    hide Saved;
    FreedItems(s, t, lo, hi, all);
    hide QueuesOk;
  }

  lemma FreedDirty(s: Sys, t: Tid, lo: nat, hi: nat, all: bool)
    requires QueuesOk(s.items, s.active, s.swapping) && DirtyOk(s)
    ensures DirtyOk(FreeRange(s, t, lo, hi, all))
  {
    hide Sent, Fetched;
    FreedItems(s, t, lo, hi, all);
    hide QueuesOk;
  }

  lemma FreedLeaving(s: Sys, t: Tid, lo: nat, hi: nat, all: bool)
    requires QueuesOk(s.items, s.active, s.swapping) && LeavingOutside(s, t, lo, hi)
    ensures LeavingOk(FreeRange(s, t, lo, hi, all))
  {
    hide Sent, Fetched;
    FreedItems(s, t, lo, hi, all);
    hide QueuesOk;
    assert forall i :: Leaving(FreeRange(s, t, lo, hi, all), i) ==> Leaving(s, i);
  }

  lemma FreedArriving(s: Sys, t: Tid, lo: nat, hi: nat, all: bool)
    requires QueuesOk(s.items, s.active, s.swapping) && ArrivingOk(s)
    ensures ArrivingOk(FreeRange(s, t, lo, hi, all))
  {
    hide Sent, Fetched;
    FreedItems(s, t, lo, hi, all);
    hide QueuesOk;
    assert forall i :: Arriving(FreeRange(s, t, lo, hi, all), i) ==> Arriving(s, i);
  }

  lemma FreedWaiters(s: Sys, t: Tid, lo: nat, hi: nat, all: bool)
    requires QueuesOk(s.items, s.active, s.swapping) && WaitersOk(s.procs, s.blocked, s.items, s.gets)
    ensures var s' := FreeRange(s, t, lo, hi, all); WaitersOk(s.procs, s.blocked, s'.items, s.gets)
  {
    var s' := FreeRange(s, t, lo, hi, all);
    forall u, i, j | Awaits(s'.items, s.gets, u, i) && Awaits(s'.items, s.gets, u, j)
      ensures u in s.blocked && i == j
    {
      assert Awaits(s.items, s.gets, u, i) && Awaits(s.items, s.gets, u, j);
    }
  }

  /** Freeing a range of pages none of which is mapped keeps the invariant. */
  lemma FreeRangeInv(s: Sys, t: Tid, lo: nat, hi: nat, all: bool)
    requires InvOutside(s, t, lo, hi)
    requires forall p :: p in s.hw ==> !Within(p, t, lo, hi)
    ensures Inv(FreeRange(s, t, lo, hi, all))
  {
    hide QueuesOk, TablesOk, FramesOk, SlotsOk, StoresOk, PutsOk, GetsOk, DirtyOk, CleanOk, LeavingOk,
      ArrivingOk, WaitersOk, LeavingOutside;
    FreedQueues(s, t, lo, hi, all);
    FreedTables(s, t, lo, hi, all);
    FreeFramesOk(s.frames, s.free, s.pt, t, lo, hi);
    FreedSlots(s, t, lo, hi, all);
    FreedFlights(s, t, lo, hi, all);
    FreedContents(s, t, lo, hi, all);
    FreedWaiters(s, t, lo, hi, all);
  }

  function FlatWithout(m: Flat, t: Tid, lo: nat, hi: nat): Flat {
    map p | p in m && !Within(p, t, lo, hi) :: m[p]
  }

  lemma FreedFlat(m: Flat, t: Tid, lo: nat, hi: nat)
    ensures forall q :: FlatAt(FlatWithout(m, t, lo, hi), q) == if Within(q, t, lo, hi) then Zero() else FlatAt(m, q)
  {
  }

  lemma FreedArrivals(s: Sys, t: Tid, lo: nat, hi: nat, all: bool)
    requires QueuesOk(s.items, s.active, s.swapping)
    ensures var s' := FreeRange(s, t, lo, hi, all);
      && (forall i :: Arriving(s', i) <==> Arriving(s, i) && !Within(s.items[i].page, t, lo, hi))
      && (forall i :: Arriving(s', i) ==> s'.items[i].page == s.items[i].page && s'.items[i].slot == s.items[i].slot)
      && (forall q :: !Within(q, t, lo, hi) && Settled(s', q) ==> Settled(s, q))
  {
    FreedItems(s, t, lo, hi, all);
    hide QueuesOk, Within;
    var s' := FreeRange(s, t, lo, hi, all);
    assert forall i :: Arriving(s', i) <==> Arriving(s, i) && !Within(s.items[i].page, t, lo, hi);
  }

  /** Freed pages read as zero again; all other pages keep what they show. */
  lemma FreeRangeShows(s: Sys, t: Tid, lo: nat, hi: nat, all: bool, m: Flat)
    requires QueuesOk(s.items, s.active, s.swapping) && Shows(s, m)
    ensures Shows(FreeRange(s, t, lo, hi, all), FlatWithout(m, t, lo, hi))
  {
    hide QueuesOk, Zero, SlotShows, FlatAt, FlatWithout, Settled;
    FreedFlat(m, t, lo, hi);
    FreedArrivals(s, t, lo, hi, all);
  }

  // -------------------------------------------------------------- unmapping

  /** No page on its way out that `t` loses below `top`, and keeps outside lo..hi, changed since its write began. */
  ghost predicate UnmapSafe(s: Sys, t: Tid, top: nat, lo: nat, hi: nat) {
    forall id :: Leaving(s, id) && InFrame(s.pt, s.items[id].page)
                 && Within(s.items[id].page, t, 0, top) && !Within(s.items[id].page, t, lo, hi)
      ==> Sent(s.puts, s.file, s.mem, id, s.items[id].slot, s.pt[s.items[id].page].frame)
  }

  lemma UnmapInv(s: Sys, t: Tid, top: nat, lo: nat, hi: nat)
    requires Inv(s) && UnmapSafe(s, t, top, lo, hi)
    ensures InvOutside(UnmapRange(s, t, 0, top), t, lo, hi)
  {
    hide QueuesOk, TablesOk, FramesOk, SlotsOk, StoresOk, PutsOk, GetsOk, WaitersOk, Saved, Sent, Fetched;
    var s' := UnmapRange(s, t, 0, top);
    assert forall i :: Arriving(s', i) <==> Arriving(s, i);
    assert forall i :: Leaving(s', i) <==> Leaving(s, i);
  }

  lemma UnmapShows(s: Sys, t: Tid, top: nat, m: Flat)
    requires Shows(s, m)
    ensures Shows(UnmapRange(s, t, 0, top), m)
  {
    hide FlatAt, Zero, SlotShows;
    var s' := UnmapRange(s, t, 0, top);
    assert forall i :: Arriving(s', i) <==> Arriving(s, i);
    assert forall q :: Settled(s', q) <==> Settled(s, q);
    hide Settled;
  }

  // ---------------------------------------------------------------- Delete

  /** After pager_free_all nobody waits on behalf of `t`, and no entry of `t` is left. */
  lemma NothingLeft(s: Sys, t: Tid)
    requires InvOutside(s, t, 0, ALL_PAGES)
    ensures var s' := FreeRange(s, t, 0, ALL_PAGES, true);
      && (forall p :: p in s'.pt ==> p.tid != t)
      && (forall i :: !Awaits(s'.items, s'.gets, t, i))
  {
    hide FramesOk, MappingsOk, SlotsOk, StoresOk, PutsOk, GetsOk, DirtyOk, CleanOk, LeavingOutside,
      ArrivingOk, WaitersOk, FreeFrames;
    var s' := FreeRange(s, t, 0, ALL_PAGES, true);
    assert forall i :: Live(s.items, i) ==> s.items[i].page in s.pt && s.items[i].page.vpn < ALL_PAGES;
    assert forall i :: Live(s'.items, i) ==> s.items[i].page.tid != t;
  }

  lemma RemoveProcess(s: Sys, t: Tid)
    requires Inv(s)
    requires forall p :: p in s.pt ==> p.tid != t
    requires forall i :: !Awaits(s.items, s.gets, t, i)
    ensures Inv(s.(procs := s.procs - {t}, blocked := s.blocked - {t}))
  {
    hide QueuesOk, FramesOk, MappingsOk, SlotsOk, StoresOk, PutsOk, GetsOk, Saved, Sent, Fetched;
    var s' := s.(procs := s.procs - {t}, blocked := s.blocked - {t});
    assert forall i :: Arriving(s', i) <==> Arriving(s, i);
    assert forall i :: Leaving(s', i) <==> Leaving(s, i);
  }

  /** delete_process stops unmapping below STACK_TOP, so the page at STACK_TOP must not be mapped. */
  ghost predicate DeleteSafe(s: Sys, t: Tid) {
    Page(t, STACK_TOP_VPN) !in s.hw
  }

  lemma DeleteUnmaps(s: Sys, t: Tid)
    requires Inv(s) && DeleteSafe(s, t)
    ensures forall p :: p in UnmapRange(s, t, 0, STACK_TOP_VPN).hw ==> p.tid != t
  {
    hide QueuesOk, FramesOk, SlotsOk, StoresOk, PutsOk, GetsOk, DirtyOk, CleanOk, LeavingOk, ArrivingOk, WaitersOk;
    assert forall p :: p in s.hw ==> ResidentAt(s.pt, p, s.hw[p].frame);
    assert forall p :: p in s.hw && p.tid == t ==> p == Page(t, p.vpn);
  }

  lemma DeleteInv(s: Sys, t: Tid)
    requires Inv(s) && DeleteSafe(s, t)
    ensures Inv(Delete(s, t))
  {
    DeleteUnmaps(s, t);
    UnmapInv(s, t, STACK_TOP_VPN, 0, ALL_PAGES) by { EverythingFreed(s, t); }
    hide Inv, InvOutside;
    var u := UnmapRange(s, t, 0, STACK_TOP_VPN);
    FreeRangeInv(u, t, 0, ALL_PAGES, true);
    NothingLeft(u, t);
    RemoveProcess(FreeRange(u, t, 0, ALL_PAGES, true), t);
  }

  lemma EverythingFreed(s: Sys, t: Tid)
    ensures UnmapSafe(s, t, STACK_TOP_VPN, 0, ALL_PAGES)
  {
  }

  /**
   Deleting a process keeps the invariant exactly if its page at STACK_TOP is not
   mapped. Otherwise the mapping survives the process and shows a frame that is free.
   */
  lemma DeleteExact(s: Sys, t: Tid)
    requires Inv(s)
    ensures Inv(Delete(s, t)) <==> DeleteSafe(s, t)
    ensures !DeleteSafe(s, t) ==>
      var p := Page(t, STACK_TOP_VPN);
      p in Delete(s, t).hw && p !in Delete(s, t).pt && Delete(s, t).hw[p].frame in Delete(s, t).free
  {
    if DeleteSafe(s, t) {
      DeleteInv(s, t);
    } else {
      StaleMapping(s, t);
      assert !MappingsOk(Delete(s, t).hw, Delete(s, t).pt);
    }
  }

  lemma StaleMapping(s: Sys, t: Tid)
    requires Inv(s) && !DeleteSafe(s, t)
    ensures var p := Page(t, STACK_TOP_VPN);
      p in Delete(s, t).hw && p !in Delete(s, t).pt && Delete(s, t).hw[p].frame in Delete(s, t).free
  {
    hide QueuesOk, TablesOk, FramesOk, SlotsOk, StoresOk, PutsOk, GetsOk, DirtyOk, CleanOk, LeavingOk,
      ArrivingOk, WaitersOk;
    var p := Page(t, STACK_TOP_VPN);
    assert ResidentAt(s.pt, p, s.hw[p].frame);
    hide FreeFrames;
    FreeFramesExact(s.free, s.pt, t, 0, ALL_PAGES, s.hw[p].frame);
  }

  lemma DeleteShows(s: Sys, t: Tid, m: Flat)
    requires Inv(s) && Shows(s, m)
    ensures Shows(Delete(s, t), FlatWithout(m, t, 0, ALL_PAGES))
  {
    var u := UnmapRange(s, t, 0, STACK_TOP_VPN);
    assert QueuesOk(u.items, u.active, u.swapping);
    hide Inv, QueuesOk;
    UnmapShows(s, t, STACK_TOP_VPN, m);
    FreeRangeShows(u, t, 0, ALL_PAGES, true, m);
    SameProcesses(FreeRange(u, t, 0, ALL_PAGES, true), s.procs - {t}, s.blocked - {t}, FlatWithout(m, t, 0, ALL_PAGES));
  }

  /** What is shown depends neither on the process table nor on who is blocked. */
  lemma SameProcesses(s: Sys, procs: set<Tid>, blocked: set<Tid>, m: Flat)
    requires Shows(s, m)
    ensures Shows(s.(procs := procs, blocked := blocked), m)
  {
    hide FlatAt, Zero, SlotShows;
    var s' := s.(procs := procs, blocked := blocked);
    assert forall i :: Arriving(s', i) <==> Arriving(s, i);
    assert forall q :: Settled(s', q) <==> Settled(s, q);
    hide Settled;
  }

  // ----------------------------------------------------------------- Start

  ghost predicate StartSafe(s: Sys, t: Tid) {
    UnmapSafe(s, t, STACK_TOP_VPN, HEAP_START_VPN, HEAP_END_VPN)
  }

  lemma StartInv(s: Sys, t: Tid)
    requires Inv(s) && StartSafe(s, t)
    ensures Inv(Start(s, t))
  {
    UnmapInv(s, t, STACK_TOP_VPN, HEAP_START_VPN, HEAP_END_VPN);
    assert MappingsOk(s.hw, s.pt);
    hide Inv, InvOutside, MappingsOk;
    FreeRangeInv(UnmapRange(s, t, 0, STACK_TOP_VPN), t, HEAP_START_VPN, HEAP_END_VPN, false);
  }

  /** The page of `id` is the loader's, on its way out, and not in the heap that start_process frees. */
  ghost predicate LoaderPageLeaving(s: Sys, t: Tid, id: Id) {
    && Leaving(s, id) && InFrame(s.pt, s.items[id].page)
    && Within(s.items[id].page, t, 0, STACK_TOP_VPN)
    && !Within(s.items[id].page, t, HEAP_START_VPN, HEAP_END_VPN)
  }

  lemma StartStrands(s: Sys, t: Tid, id: Id)
    requires Inv(s) && LoaderPageLeaving(s, t, id)
    ensures var s' := Start(s, t);
      && Leaving(s', id) && InFrame(s'.pt, s'.items[id].page) && s'.items[id].page !in s'.hw
      && s'.items[id].page == s.items[id].page && s'.items[id].slot == s.items[id].slot
      && s'.pt[s.items[id].page] == s.pt[s.items[id].page]
  {
    hide TablesOk, FramesOk, SlotsOk, StoresOk, PutsOk, GetsOk, DirtyOk, CleanOk, LeavingOk, ArrivingOk, WaitersOk;
    var u := UnmapRange(s, t, 0, STACK_TOP_VPN);
    FreedItems(u, t, HEAP_START_VPN, HEAP_END_VPN, false);
  }

  /**
   start_process keeps the invariant exactly if no page of the loader that is on its
   way out changed after its writes were issued: unmapping makes such a page look untouched.
   */
  lemma StartExact(s: Sys, t: Tid)
    requires Inv(s)
    ensures Inv(Start(s, t)) <==> StartSafe(s, t)
  {
    if StartSafe(s, t) {
      StartInv(s, t);
    } else {
      var id :| LoaderPageLeaving(s, t, id)
        && !Sent(s.puts, s.file, s.mem, id, s.items[id].slot, s.pt[s.items[id].page].frame);
      StartStrands(s, t, id);
      assert !LeavingOk(Start(s, t));
    }
  }

  lemma StartShows(s: Sys, t: Tid, m: Flat)
    requires Inv(s) && Shows(s, m)
    ensures Shows(Start(s, t), FlatWithout(m, t, HEAP_START_VPN, HEAP_END_VPN))
  {
    var u := UnmapRange(s, t, 0, STACK_TOP_VPN);
    assert QueuesOk(u.items, u.active, u.swapping);
    hide Inv, QueuesOk;
    UnmapShows(s, t, STACK_TOP_VPN, m);
    FreeRangeShows(u, t, HEAP_START_VPN, HEAP_END_VPN, false, m);
  }

  // ---------------------------------------------------------------- Create

  lemma CreateInv(s: Sys, t: Tid)
    requires Inv(s)
    ensures Inv(Create(s, t))
  {
    hide QueuesOk, FramesOk, MappingsOk, SlotsOk, StoresOk, PutsOk, GetsOk, Saved, Sent, Fetched;
    var s' := Create(s, t);
    assert forall i :: Arriving(s', i) <==> Arriving(s, i);
    assert forall i :: Leaving(s', i) <==> Leaving(s, i);
  }
}
