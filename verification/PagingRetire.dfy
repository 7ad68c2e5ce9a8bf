/**
 A page gives up its frame and stays in the swap file only. Eviction of a clean
 page and the end of a swap-out both come down to this.
 */
module PagingRetire {
  import opened Seqs
  import opened PagingState
  import opened PagingOps

  lemma RetireTables(procs: set<Tid>, pt: map<Page, Pte>, items: map<Id, Item>, id: Id, x: Slot)
    requires TablesOk(procs, pt, items) && Live(items, id)
    ensures TablesOk(procs, pt[items[id].page := Swapped(x)], items - {id})
  {
    var p := items[id].page;
    var pt', items' := pt[p := Swapped(x)], items - {id};
    assert forall i :: Live(items', i) <==> Live(items, i) && i != id;
    forall q | InFrame(pt', q) && q.vpn != IPC_VPN
      ensures exists i :: Holds(items', i, q)
    {
      assert InFrame(pt, q);
      var i :| Holds(items, i, q);
      assert Holds(items', i, q);
    }
  }

  lemma RetireFrames(frames: set<Frame>, free: seq<Frame>, pt: map<Page, Pte>, p: Page, x: Slot)
    requires FramesOk(frames, free, pt) && InFrame(pt, p)
    ensures FramesOk(frames, FrameFree(free, pt[p].frame), pt[p := Swapped(x)])
  {
    var f := pt[p].frame;
    var pt' := pt[p := Swapped(x)];
    assert ResidentAt(pt, p, f);
    AppendNoDup(free, f);
    assert forall q, g :: ResidentAt(pt', q, g) <==> ResidentAt(pt, q, g) && q != p;
    forall g | g in frames && g !in free + [f]
      ensures exists q :: ResidentAt(pt', q, g)
    {
      var q :| ResidentAt(pt, q, g);
      assert ResidentAt(pt', q, g);
    }
  }

  lemma RetireSlots(used: set<Slot>, pt: map<Page, Pte>, items: map<Id, Item>, id: Id, p: Page, x: Slot)
    requires SlotsOk(used, pt, items) && OwnsSlot(items, id, x) && InFrame(pt, p)
    ensures SlotsOk(used, pt[p := Swapped(x)], items - {id})
  {
    var pt', items' := pt[p := Swapped(x)], items - {id};
    assert forall i, y :: OwnsSlot(items', i, y) <==> OwnsSlot(items, i, y) && i != id;
    assert forall q, y :: SwappedTo(pt', q, y) <==> if q == p then y == x else SwappedTo(pt, q, y);
  }

  /** Every other live item is about another page, whose entry stays as it was. */
  lemma OthersElsewhere(procs: set<Tid>, pt: map<Page, Pte>, items: map<Id, Item>, id: Id)
    requires TablesOk(procs, pt, items) && Live(items, id)
    ensures forall i :: Live(items, i) && i != id ==> items[i].page != items[id].page
  {
  }

  lemma RetireMappings(hw: map<Page, Mapping>, pt: map<Page, Pte>, p: Page, x: Slot)
    requires MappingsOk(hw, pt) && p !in hw
    ensures MappingsOk(hw, pt[p := Swapped(x)])
  {
  }

  /** `s'` is `s` with the page of item `id` retired and the item gone from both queues. */
  ghost predicate Retired(s: Sys, s': Sys, id: Id) {
    && Live(s.items, id) && s.items[id].slot.Some? && InFrame(s.pt, s.items[id].page)
    && s'.pt == s.pt[s.items[id].page := Swapped(s.items[id].slot.value)]
    && s'.items == s.items - {id}
    && s'.gets == s.gets && id !in s.gets
    && s'.hw == s.hw && s'.mem == s.mem && s'.file == s.file
    && (forall i :: i in s'.active <==> i in s.active && i != id)
    && (forall i :: i in s'.swapping <==> i in s.swapping && i != id)
  }

  lemma RetireContents(s: Sys, s': Sys, id: Id)
    requires Retired(s, s', id) && TablesOk(s.procs, s.pt, s.items)
    requires DirtyOk(s) && CleanOk(s) && ArrivingOk(s)
    ensures DirtyOk(s') && CleanOk(s') && ArrivingOk(s')
  {
    hide TablesOk, Saved, Fetched;
    OthersElsewhere(s.procs, s.pt, s.items, id);
    assert forall i :: Live(s'.items, i) <==> Live(s.items, i) && i != id;
    assert forall i :: Arriving(s', i) <==> Arriving(s, i);
    assert forall i :: Leaving(s', i) <==> Leaving(s, i) && i != id;
  }

  /** The memory presented does not change when the slot holds the bytes of the frame. */
  lemma RetireShows(s: Sys, s': Sys, id: Id, m: Flat)
    requires Retired(s, s', id) && TablesOk(s.procs, s.pt, s.items) && Shows(s, m)
    requires Saved(s.file, s.mem, s.items[id].slot, s.pt[s.items[id].page].frame)
    ensures Shows(s', m)
  {
    hide TablesOk, FlatAt, Zero, ShowsFrames;
    OthersElsewhere(s.procs, s.pt, s.items, id);
    assert forall i :: Arriving(s', i) <==> Arriving(s, i);
    assert Settled(s, s.items[id].page);
    assert FlatAt(m, s.items[id].page) == s.mem[s.pt[s.items[id].page].frame] by { FrameShown(s, id, m); }
    RetireShowsFrames(s, s', id, m);
  }

  lemma FrameShown(s: Sys, id: Id, m: Flat)
    requires ShowsFrames(s, m) && Live(s.items, id) && InFrame(s.pt, s.items[id].page) && Settled(s, s.items[id].page)
    ensures s.pt[s.items[id].page].frame in s.mem && FlatAt(m, s.items[id].page) == s.mem[s.pt[s.items[id].page].frame]
  {
    hide FlatAt, Settled;
  }

  lemma RetireShowsFrames(s: Sys, s': Sys, id: Id, m: Flat)
    requires Retired(s, s', id) && ShowsFrames(s, m)
    ensures ShowsFrames(s', m)
  {
    hide FlatAt, Zero;
    assert forall i :: Arriving(s', i) <==> Arriving(s, i);
    assert forall q :: Settled(s', q) ==> Settled(s, q);
  }

  // ------------------------------------------------------------ EvictClean

  ghost predicate CanEvict(s: Sys) {
    && HeadReady(s)
    && !s.pt[s.items[s.active[0]].page].dirty
    && s.items[s.active[0]].page !in s.hw
  }

  lemma EvictFlights(s: Sys)
    requires QueuesOk(s.items, s.active, s.swapping) && CanEvict(s)
    requires PutsOk(s.puts, s.gets, s.items, s.swapping) && GetsOk(s.puts, s.gets, s.items, s.swapping)
    ensures PutsOk(s.puts, s.gets, EvictClean(s).items, s.swapping)
    ensures GetsOk(s.puts, s.gets, EvictClean(s).items, s.swapping)
  {
    assert forall id :: id in s.swapping ==> id != s.active[0] && EvictClean(s).items[id] == s.items[id];
  }

  lemma EvictLeaving(s: Sys)
    requires CanEvict(s) && Retired(s, EvictClean(s), s.active[0]) && s.active[0] !in s.swapping
    requires TablesOk(s.procs, s.pt, s.items) && LeavingOk(s)
    ensures LeavingOk(EvictClean(s))
  {
    hide TablesOk, Sent;
    OthersElsewhere(s.procs, s.pt, s.items, s.active[0]);
    assert forall i :: Leaving(EvictClean(s), i) <==> Leaving(s, i);
  }

  lemma EvictWaiters(s: Sys)
    requires Known(s, s.active) && s.active != []
    requires WaitersOk(s.procs, s.blocked, s.items, s.gets)
    ensures WaitersOk(s.procs, s.blocked, s.items - {s.active[0]}, s.gets)
  {
    assert forall t, id :: Awaits(s.items - {s.active[0]}, s.gets, t, id) ==> Awaits(s.items, s.gets, t, id);
  }

  lemma EvictInv(s: Sys)
    requires Inv(s) && CanEvict(s)
    ensures Inv(EvictClean(s))
    ensures Retired(s, EvictClean(s), s.active[0])
  {
    hide TablesOk, FramesOk, MappingsOk, SlotsOk, StoresOk, PutsOk, GetsOk, DirtyOk, CleanOk, LeavingOk,
      ArrivingOk, WaitersOk;
    var s' := EvictClean(s);
    var id := s.active[0];
    var p, x := s.items[id].page, s.items[id].slot.value;
    RetireTables(s.procs, s.pt, s.items, id, x);
    RetireFrames(s.frames, s.free, s.pt, p, x);
    RetireMappings(s.hw, s.pt, p, x);
    RetireSlots(s.used, s.pt, s.items, id, p, x);
    EvictFlights(s);
    RetireContents(s, s', id);
    EvictLeaving(s);
    EvictWaiters(s);
  }

  lemma EvictShows(s: Sys, m: Flat)
    requires Inv(s) && CanEvict(s) && Shows(s, m)
    ensures Shows(EvictClean(s), m)
  {
    hide TablesOk, FramesOk, MappingsOk, SlotsOk, StoresOk, PutsOk, DirtyOk, LeavingOk, ArrivingOk, WaitersOk,
      Saved, Shows;
    RetireShows(s, EvictClean(s), s.active[0], m);
  }
}
