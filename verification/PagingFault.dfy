/**
 Page faults: a first reference, the start of a swap-in and the mapping of a
 resident page keep the invariant and the memory that processes see.
 */
module PagingFault {
  import opened Seqs
  import opened PagingState
  import opened PagingOps
  import opened PagingEvict
  import opened PagingRetire

  // --------------------------------------------------- taking a new frame

  lemma TakeFrame(frames: set<Frame>, free: seq<Frame>, pt: map<Page, Pte>, p: Page, dirty: bool)
    requires FramesOk(frames, free, pt) && free != [] && !InFrame(pt, p)
    ensures FramesOk(frames, free[..|free| - 1], pt[p := Resident(Top(free), dirty)])
    ensures forall q :: InFrame(pt, q) ==> pt[q].frame != Top(free)
  {
    var f := Top(free);
    var free', pt' := free[..|free| - 1], pt[p := Resident(f, dirty)];
    assert free == free' + [f];
    assert forall g :: g in free <==> g in free' || g == f;
    assert forall q, g :: ResidentAt(pt', q, g) <==> if q == p then g == f else ResidentAt(pt, q, g);
    assert forall q :: InFrame(pt, q) ==> ResidentAt(pt, q, pt[q].frame);
    forall g | g in frames && g !in free'
      ensures exists q :: ResidentAt(pt', q, g)
    {
      if g == f {
        assert ResidentAt(pt', p, g);
      } else {
        var q :| ResidentAt(pt, q, g);
        assert ResidentAt(pt', q, g);
      }
    }
  }

  /** A page that had no item gets one. */
  lemma AddItemTables(procs: set<Tid>, pt: map<Page, Pte>, items: map<Id, Item>, p: Page, e: Pte, id: Id, it: Item)
    requires TablesOk(procs, pt, items) && !InFrame(pt, p) && id !in items
    requires e.Resident? && it.page == p && !it.deleted && p.vpn != IPC_VPN && p.vpn <= STACK_TOP_VPN && p.tid in procs
    ensures TablesOk(procs, pt[p := e], items[id := it])
  {
    var pt', items' := pt[p := e], items[id := it];
    assert forall i :: Live(items', i) <==> Live(items, i) || i == id;
    forall q | InFrame(pt', q) && q.vpn != IPC_VPN
      ensures exists i :: Holds(items', i, q)
    {
      if q == p {
        assert Holds(items', id, q);
      } else {
        assert InFrame(pt, q);
        var i :| Holds(items, i, q);
        assert Holds(items', i, q);
      }
    }
  }

  lemma NewFrameMappings(hw: map<Page, Mapping>, pt: map<Page, Pte>, p: Page, e: Pte)
    requires MappingsOk(hw, pt) && !InFrame(pt, p)
    ensures p !in hw && MappingsOk(hw, pt[p := e])
  {
  }

  /** A fresh item is in neither queue and no request names it. */
  lemma FreshItem(s: Sys, id: Id)
    requires QueuesOk(s.items, s.active, s.swapping) && id !in s.items
    requires PutsOk(s.puts, s.gets, s.items, s.swapping) && GetsOk(s.puts, s.gets, s.items, s.swapping)
    ensures id !in s.active && id !in s.swapping && id !in s.gets
    ensures forall r :: r in s.puts ==> r.id != id
  {
  }

  lemma SentSameFrame(puts: map<Request, WriteOp>, file: map<Slot, Bytes>, mem: map<Frame, Bytes>,
                      mem': map<Frame, Bytes>, id: Id, x: Option<Slot>, f: Frame)
    requires Sent(puts, file, mem, id, x, f) && f in mem' && mem'[f] == mem[f]
    ensures Sent(puts, file, mem', id, x, f)
  {
    assert forall k: nat :: k < CHUNKS ==> ChunkSent(puts, id, file[x.value], mem[f], k);
  }

  /** `s'` is `s` with frame `f` zeroed and given to page `p`, which had none. */
  ghost predicate Furnished(s: Sys, s': Sys, p: Page, f: Frame, id: Id) {
    && !InFrame(s.pt, p)
    && InFrame(s'.pt, p) && s'.pt == s.pt[p := s'.pt[p]] && s'.pt[p].frame == f
    && (forall q :: InFrame(s.pt, q) ==> s.pt[q].frame != f)
    && s'.hw == s.hw && s'.file == s.file && s'.puts == s.puts
    && s'.mem == s.mem[f := Zero()]
    && id !in s.items && id !in s.active && id !in s.swapping && id !in s.gets
    && (s'.items == s.items || (id in s'.items && s'.items == s.items[id := s'.items[id]]))
    && (s'.gets == s.gets || (id in s'.gets && s'.gets == s.gets[id := s'.gets[id]]))
    && (s'.active == s.active || s'.active == s.active + [id])
    && (s'.swapping == s.swapping || s'.swapping == s.swapping + [id])
  }

  lemma OldItems(s: Sys, s': Sys, p: Page, f: Frame, id: Id)
    requires Furnished(s, s', p, f, id) && TablesOk(s.procs, s.pt, s.items)
    ensures forall i :: i != id ==> (Live(s'.items, i) <==> Live(s.items, i))
    ensures forall i :: i != id ==> (Arriving(s', i) <==> Arriving(s, i))
    ensures forall i :: i != id ==> (Leaving(s', i) <==> Leaving(s, i))
    ensures forall i :: Live(s.items, i) ==>
      && InFrame(s.pt, s.items[i].page) && s.items[i].page != p
      && s'.items[i] == s.items[i] && s'.pt[s.items[i].page] == s.pt[s.items[i].page]
      && s.pt[s.items[i].page].frame != f
  {
  }

  lemma FurnishClean(s: Sys, s': Sys, p: Page, f: Frame, id: Id)
    requires Furnished(s, s', p, f, id) && TablesOk(s.procs, s.pt, s.items)
    requires CleanOk(s) && ArrivingOk(s)
    requires id in s'.active && Live(s'.items, id) ==> s'.items[id].page == p && s'.pt[p].dirty
    requires Arriving(s', id) ==> s'.items[id].page == p && Fetched(s'.gets[id], s'.file, s'.mem, s'.items[id].slot, f)
    ensures CleanOk(s') && ArrivingOk(s')
  {
    hide TablesOk;
    OldItems(s, s', p, f, id);
  }

  lemma FurnishLeaving(s: Sys, s': Sys, p: Page, f: Frame, id: Id)
    requires Furnished(s, s', p, f, id) && TablesOk(s.procs, s.pt, s.items)
    requires LeavingOk(s) && !Leaving(s', id)
    ensures LeavingOk(s')
  {
    hide TablesOk, Sent;
    OldItems(s, s', p, f, id);
    forall i | Leaving(s', i) && s'.items[i].page !in s'.hw
      ensures Sent(s'.puts, s'.file, s'.mem, i, s'.items[i].slot, s'.pt[s'.items[i].page].frame)
    {
      var g := s.pt[s.items[i].page].frame;
      assert Sent(s.puts, s.file, s.mem, i, s.items[i].slot, g);
      assert f != g && g in s.mem by { SentFrame(s.puts, s.file, s.mem, i, s.items[i].slot, g); }
      SentSameFrame(s.puts, s.file, s.mem, s'.mem, i, s.items[i].slot, g);
    }
  }

  lemma SentFrame(puts: map<Request, WriteOp>, file: map<Slot, Bytes>, mem: map<Frame, Bytes>,
                  id: Id, x: Option<Slot>, f: Frame)
    requires Sent(puts, file, mem, id, x, f)
    ensures f in mem
  {
  }

  lemma FurnishDirty(s: Sys, s': Sys, p: Page, f: Frame, id: Id)
    requires Furnished(s, s', p, f, id) && TablesOk(s.procs, s.pt, s.items)
    requires DirtyOk(s) && !Leaving(s', id)
    requires Arriving(s', id) ==> s'.items[id].page == p && !s'.pt[p].dirty && p !in s.hw
    ensures DirtyOk(s')
  {
    hide TablesOk;
    OldItems(s, s', p, f, id);
  }

  lemma FurnishShowsFrames(s: Sys, s': Sys, p: Page, f: Frame, id: Id, m: Flat)
    requires Furnished(s, s', p, f, id) && TablesOk(s.procs, s.pt, s.items) && ShowsFrames(s, m)
    requires if p in s.pt then Arriving(s', id) && s'.items[id].page == p else FlatAt(m, p) == Zero()
    ensures ShowsFrames(s', m)
  {
    hide TablesOk, FlatAt, Zero;
    OldItems(s, s', p, f, id);
    assert forall q :: Settled(s', q) ==> Settled(s, q);
    assert p in s.pt ==> !Settled(s', p);
    hide Settled, Furnished;
    assert s'.pt == s.pt[p := s'.pt[p]] && s'.mem == s.mem[f := Zero()] by { assert Furnished(s, s', p, f, id); }
  }

  /** The zeroed frame shows what an untouched page shows; a page read back still shows its slot. */
  lemma FurnishShows(s: Sys, s': Sys, p: Page, f: Frame, id: Id, m: Flat)
    requires Furnished(s, s', p, f, id) && TablesOk(s.procs, s.pt, s.items) && Shows(s, m)
    requires Arriving(s', id) ==> s'.items[id].page == p
    requires if p in s.pt then Arriving(s', id) && SlotShows(s.file, s'.items[id].slot, FlatAt(m, p))
      else !Arriving(s', id)
    ensures Shows(s', m)
  {
    hide TablesOk, FlatAt, Zero, SlotShows, ShowsFrames;
    FurnishShowsFrames(s, s', p, f, id, m);
    OldItems(s, s', p, f, id);
  }

  // -------------------------------------------------------------- AllocNew

  ghost predicate CanAllocNew(s: Sys, p: Page, id: Id) {
    s.free != [] && p !in s.pt && p.tid in s.procs && p.vpn <= STACK_TOP_VPN && id !in s.items
  }

  lemma AllocNewFurnishes(s: Sys, p: Page, id: Id)
    requires Inv(s) && CanAllocNew(s, p, id)
    ensures Furnished(s, AllocNew(s, p, id), p, Top(s.free), id)
    ensures FramesOk(s.frames, AllocNew(s, p, id).free, AllocNew(s, p, id).pt)
    ensures p !in s.hw && MappingsOk(s.hw, AllocNew(s, p, id).pt)
  {
    hide QueuesOk, TablesOk, FramesOk, MappingsOk, SlotsOk, StoresOk, PutsOk, GetsOk, DirtyOk, CleanOk,
      LeavingOk, ArrivingOk, WaitersOk, Repeat;
    FreshItem(s, id);
    TakeFrame(s.frames, s.free, s.pt, p, p.vpn != IPC_VPN);
    NewFrameMappings(s.hw, s.pt, p, Resident(Top(s.free), p.vpn != IPC_VPN));
  }

  lemma AllocNewQueues(s: Sys, p: Page, id: Id)
    requires QueuesOk(s.items, s.active, s.swapping) && CanAllocNew(s, p, id)
    ensures var s' := AllocNew(s, p, id); QueuesOk(s'.items, s'.active, s'.swapping)
  {
    hide Zero;
    AppendNoDup(s.active, id);
  }

  lemma AllocNewTables(s: Sys, p: Page, id: Id)
    requires TablesOk(s.procs, s.pt, s.items) && CanAllocNew(s, p, id)
    ensures var s' := AllocNew(s, p, id); TablesOk(s'.procs, s'.pt, s'.items)
  {
    if p.vpn != IPC_VPN {
      AddItemTables(s.procs, s.pt, s.items, p, Resident(Top(s.free), true), id, Item(p, None, 0, None, false));
    } else {
      assert forall q :: q != p ==> (InFrame(AllocNew(s, p, id).pt, q) <==> InFrame(s.pt, q));
    }
  }

  lemma AllocNewSlots(s: Sys, p: Page, id: Id)
    requires SlotsOk(s.used, s.pt, s.items) && CanAllocNew(s, p, id)
    ensures var s' := AllocNew(s, p, id); SlotsOk(s'.used, s'.pt, s'.items)
  {
    hide Repeat, Top;
    var s' := AllocNew(s, p, id);
    assert forall i, y :: OwnsSlot(s'.items, i, y) <==> OwnsSlot(s.items, i, y);
    assert forall q, y :: SwappedTo(s'.pt, q, y) <==> SwappedTo(s.pt, q, y);
    assert s'.used == s.used;
    hide OwnsSlot, SwappedTo, AllocNew;
  }

  /** Adding an item that waits for nothing. */
  lemma AddIdleItem(s: Sys, id: Id, it: Item)
    requires id !in s.items && id !in s.swapping && id !in s.gets && it.initiator.None?
    requires PutsOk(s.puts, s.gets, s.items, s.swapping) && GetsOk(s.puts, s.gets, s.items, s.swapping)
    ensures PutsOk(s.puts, s.gets, s.items[id := it], s.swapping)
    ensures GetsOk(s.puts, s.gets, s.items[id := it], s.swapping)
  {
  }

  lemma AddIdleWaiter(s: Sys, id: Id, it: Item)
    requires id !in s.items && id !in s.gets && it.initiator.None?
    requires WaitersOk(s.procs, s.blocked, s.items, s.gets)
    ensures WaitersOk(s.procs, s.blocked, s.items[id := it], s.gets)
  {
    var items' := s.items[id := it];
    forall t, i, j | Awaits(items', s.gets, t, i) && Awaits(items', s.gets, t, j)
      ensures t in s.blocked && i == j
    {
      assert Awaits(s.items, s.gets, t, i) && Awaits(s.items, s.gets, t, j);
    }
  }

  lemma AllocNewInv(s: Sys, p: Page, id: Id)
    requires Inv(s) && CanAllocNew(s, p, id)
    ensures Inv(AllocNew(s, p, id))
  {
    hide QueuesOk, TablesOk, FramesOk, MappingsOk, SlotsOk, PutsOk, GetsOk, DirtyOk, CleanOk, LeavingOk,
      ArrivingOk, WaitersOk, Repeat, Awaits, Holds, Outstanding;
    var s' := AllocNew(s, p, id);
    AllocNewFurnishes(s, p, id);
    AllocNewQueues(s, p, id);
    AllocNewTables(s, p, id);
    AllocNewSlots(s, p, id);
    if p.vpn != IPC_VPN {
      AddIdleItem(s, id, Item(p, None, 0, None, false));
      AddIdleWaiter(s, id, Item(p, None, 0, None, false));
    }
    TopIsFrame(s);
    FurnishClean(s, s', p, Top(s.free), id);
    FurnishLeaving(s, s', p, Top(s.free), id);
    FurnishDirty(s, s', p, Top(s.free), id);
  }

  lemma TopIsFrame(s: Sys)
    requires FramesOk(s.frames, s.free, s.pt) && s.free != []
    ensures Top(s.free) in s.frames
  {
  }

  lemma AllocNewShows(s: Sys, p: Page, id: Id, m: Flat)
    requires Inv(s) && CanAllocNew(s, p, id) && Shows(s, m)
    ensures Shows(AllocNew(s, p, id), m)
  {
    hide QueuesOk, TablesOk, FramesOk, MappingsOk, SlotsOk, StoresOk, PutsOk, GetsOk, DirtyOk, CleanOk, LeavingOk,
      ArrivingOk, WaitersOk, Shows;
    AllocNewFurnishes(s, p, id);
    FurnishShows(s, AllocNew(s, p, id), p, Top(s.free), id, m);
  }

  // ----------------------------------------------------------- BeginSwapIn

  ghost predicate CanSwapIn(s: Sys, p: Page, id: Id) {
    && s.free != [] && p in s.pt && s.pt[p].Swapped?
    && p.tid in s.procs && p.tid !in s.blocked && id !in s.items
  }

  lemma SwapInFurnishes(s: Sys, p: Page, id: Id)
    requires Inv(s) && CanSwapIn(s, p, id)
    ensures Furnished(s, BeginSwapIn(s, p, id), p, Top(s.free), id)
    ensures FramesOk(s.frames, BeginSwapIn(s, p, id).free, BeginSwapIn(s, p, id).pt)
    ensures p !in s.hw && MappingsOk(s.hw, BeginSwapIn(s, p, id).pt)
    ensures id !in s.swapping && id !in s.gets && forall r :: r in s.puts ==> r.id != id
  {
    hide QueuesOk, TablesOk, FramesOk, MappingsOk, SlotsOk, StoresOk, PutsOk, GetsOk, DirtyOk, CleanOk, LeavingOk,
      ArrivingOk, WaitersOk;
    FreshItem(s, id);
    TakeFrame(s.frames, s.free, s.pt, p, false);
    NewFrameMappings(s.hw, s.pt, p, Resident(Top(s.free), false));
  }

  lemma SwapInQueues(s: Sys, p: Page, id: Id)
    requires QueuesOk(s.items, s.active, s.swapping) && CanSwapIn(s, p, id)
    ensures var s' := BeginSwapIn(s, p, id); QueuesOk(s'.items, s'.active, s'.swapping)
  {
    AppendNoDup(s.swapping, id);
  }

  lemma SwapInSlots(s: Sys, p: Page, id: Id)
    requires SlotsOk(s.used, s.pt, s.items) && CanSwapIn(s, p, id)
    ensures var s' := BeginSwapIn(s, p, id); SlotsOk(s'.used, s'.pt, s'.items)
    ensures ValidSlot(s.pt[p].slot)
  {
    var s' := BeginSwapIn(s, p, id);
    var x := s.pt[p].slot;
    assert SwappedTo(s.pt, p, x);
    assert forall i, y :: OwnsSlot(s'.items, i, y) <==> if i == id then y == x else OwnsSlot(s.items, i, y);
    assert forall q, y :: SwappedTo(s'.pt, q, y) <==> SwappedTo(s.pt, q, y) && q != p;
  }

  lemma SwapInFlights(s: Sys, p: Page, id: Id)
    requires CanSwapIn(s, p, id)
    requires id !in s.swapping && id !in s.gets && forall r :: r in s.puts ==> r.id != id
    requires PutsOk(s.puts, s.gets, s.items, s.swapping) && GetsOk(s.puts, s.gets, s.items, s.swapping)
    ensures var s' := BeginSwapIn(s, p, id); PutsOk(s'.puts, s'.gets, s'.items, s'.swapping)
    ensures var s' := BeginSwapIn(s, p, id); GetsOk(s'.puts, s'.gets, s'.items, s'.swapping)
  {
  }

  lemma SwapInWaiters(s: Sys, p: Page, id: Id)
    requires CanSwapIn(s, p, id) && id !in s.gets
    requires WaitersOk(s.procs, s.blocked, s.items, s.gets)
    ensures var s' := BeginSwapIn(s, p, id); WaitersOk(s'.procs, s'.blocked, s'.items, s'.gets)
  {
    var s' := BeginSwapIn(s, p, id);
    assert forall t, i :: Awaits(s'.items, s'.gets, t, i) <==> if i == id then t == p.tid
      else Awaits(s.items, s.gets, t, i);
  }

  lemma SwapInInv(s: Sys, p: Page, id: Id)
    requires Inv(s) && CanSwapIn(s, p, id)
    ensures Inv(BeginSwapIn(s, p, id))
  {
    hide QueuesOk, FramesOk, MappingsOk, SlotsOk, PutsOk, GetsOk, DirtyOk, CleanOk, LeavingOk, ArrivingOk, WaitersOk;
    var s' := BeginSwapIn(s, p, id);
    SwapInFurnishes(s, p, id);
    SwapInQueues(s, p, id);
    AddItemTables(s.procs, s.pt, s.items, p, Resident(Top(s.free), false), id, s'.items[id]);
    hide TablesOk;
    SwapInSlots(s, p, id);
    SwapInFlights(s, p, id);
    SwapInWaiters(s, p, id);
    TopIsFrame(s);
    FurnishClean(s, s', p, Top(s.free), id);
    FurnishLeaving(s, s', p, Top(s.free), id);
    FurnishDirty(s, s', p, Top(s.free), id);
  }

  lemma SwapInShows(s: Sys, p: Page, id: Id, m: Flat)
    requires Inv(s) && CanSwapIn(s, p, id) && Shows(s, m)
    ensures Shows(BeginSwapIn(s, p, id), m)
  {
    hide QueuesOk, TablesOk, FramesOk, MappingsOk, SlotsOk, StoresOk, PutsOk, GetsOk, DirtyOk, CleanOk, LeavingOk,
      ArrivingOk, WaitersOk, ShowsArriving, ShowsFrames, SlotShows, FlatAt;
    assert SlotShows(s.file, Some(s.pt[p].slot), FlatAt(m, p));
    SwapInFurnishes(s, p, id);
    FurnishShows(s, BeginSwapIn(s, p, id), p, Top(s.free), id, m);
  }

  // --------------------------------------------------------------- MapPage

  /** Both tables put the same pages in the same frames and slots; only dirty bits may differ. */
  ghost predicate SameFrames(pt: map<Page, Pte>, pt': map<Page, Pte>) {
    && (forall p :: p in pt <==> p in pt')
    && (forall p :: p in pt ==>
          if pt[p].Swapped? then pt'[p] == pt[p] else pt'[p].Resident? && pt'[p].frame == pt[p].frame)
  }

  lemma RemarkTables(procs: set<Tid>, pt: map<Page, Pte>, pt': map<Page, Pte>, items: map<Id, Item>)
    requires TablesOk(procs, pt, items) && SameFrames(pt, pt')
    ensures TablesOk(procs, pt', items)
  {
    assert forall p :: InFrame(pt', p) <==> InFrame(pt, p);
  }

  lemma RemarkFrames(frames: set<Frame>, free: seq<Frame>, pt: map<Page, Pte>, pt': map<Page, Pte>)
    requires FramesOk(frames, free, pt) && SameFrames(pt, pt')
    ensures FramesOk(frames, free, pt')
  {
    assert forall q, f :: ResidentAt(pt', q, f) <==> ResidentAt(pt, q, f);
  }

  lemma RemarkSlots(used: set<Slot>, pt: map<Page, Pte>, pt': map<Page, Pte>, items: map<Id, Item>)
    requires SlotsOk(used, pt, items) && SameFrames(pt, pt')
    ensures SlotsOk(used, pt', items)
  {
    assert forall q, f :: SwappedTo(pt', q, f) <==> SwappedTo(pt, q, f);
  }

  lemma MapPageContents(s: Sys, p: Page, write: bool)
    requires InFrame(s.pt, p) && Settled(s, p)
    requires DirtyOk(s) && CleanOk(s) && LeavingOk(s) && ArrivingOk(s)
    ensures var s' := MapPage(s, p, write); DirtyOk(s') && CleanOk(s') && LeavingOk(s') && ArrivingOk(s')
  {
    hide Saved, Sent, Fetched;
    var s' := MapPage(s, p, write);
    assert forall q :: InFrame(s'.pt, q) <==> InFrame(s.pt, q);
    assert forall id :: Arriving(s', id) <==> Arriving(s, id);
    assert forall id :: Leaving(s', id) <==> Leaving(s, id);
  }

  lemma MapPageInv(s: Sys, p: Page, write: bool)
    requires Inv(s) && InFrame(s.pt, p) && Settled(s, p)
    ensures Inv(MapPage(s, p, write))
  {
    hide QueuesOk, TablesOk, FramesOk, SlotsOk, StoresOk, PutsOk, GetsOk, DirtyOk, CleanOk, LeavingOk, ArrivingOk,
      WaitersOk, Settled;
    var s' := MapPage(s, p, write);
    RemarkTables(s.procs, s.pt, s'.pt, s.items);
    RemarkFrames(s.frames, s.free, s.pt, s'.pt);
    RemarkSlots(s.used, s.pt, s'.pt, s.items);
    MapPageContents(s, p, write);
  }

  /** States that differ in neither frames, contents nor arriving items present the same memory. */
  lemma SameShows(s: Sys, s': Sys, m: Flat)
    requires SameFrames(s.pt, s'.pt) && s'.file == s.file && s'.mem == s.mem && s'.gets == s.gets
    requires forall id :: id in s.gets ==> (id in s.items <==> id in s'.items)
    requires forall id :: id in s.gets && id in s.items ==> s'.items[id] == s.items[id]
    requires Shows(s, m)
    ensures Shows(s', m)
  {
    hide FlatAt, Zero, SlotShows, Settled;
    SameArrivals(s, s');
    assert forall q :: InFrame(s'.pt, q) <==> InFrame(s.pt, q);
  }

  lemma SameArrivals(s: Sys, s': Sys)
    requires s'.gets == s.gets
    requires forall id :: id in s.gets ==> (id in s.items <==> id in s'.items)
    requires forall id :: id in s.gets && id in s.items ==> s'.items[id] == s.items[id]
    ensures forall id :: Arriving(s', id) <==> Arriving(s, id)
    ensures forall q :: Settled(s', q) <==> Settled(s, q)
  {
    assert forall id :: Arriving(s', id) <==> Arriving(s, id);
  }

  lemma MapPageShows(s: Sys, p: Page, write: bool, m: Flat)
    requires InFrame(s.pt, p) && Shows(s, m)
    ensures Shows(MapPage(s, p, write), m)
  {
    hide Shows;
    SameShows(s, MapPage(s, p, write), m);
  }

  // ----------------------------------------------------------------- Fault

  /** What swap_out finds after the search: the invariant, and an unreferenced resident victim with a slot. */
  lemma VictimInv(s: Sys)
    requires Inv(s) && Victim(s).Some?
    ensures var g := Victim(s).value; Inv(g) && HeadReady(g) && g.items[g.active[0]].page !in g.hw
    ensures var g := Victim(s).value; g.pt[g.items[g.active[0]].page].frame in g.mem
  {
    hide TablesOk, FramesOk, MappingsOk, SlotsOk, StoresOk, PutsOk, GetsOk, DirtyOk, CleanOk, LeavingOk,
      ArrivingOk, WaitersOk;
    var r := Rotate(s);
    RotateInv(s);
    ActivePagesDiffer(s);
    HeadUnreferenced(s);
    var id := Head(s);
    HeadResident(s, id);
    if r.items[id].slot.None? {
      GiveSlotInv(r, FirstFree(r.used, 0).value);
    }
  }

  lemma ActivePagesDiffer(s: Sys)
    requires QueuesOk(s.items, s.active, s.swapping) && TablesOk(s.procs, s.pt, s.items)
    ensures forall i, j :: 0 <= i < j < |s.active| ==> s.items[s.active[i]].page != s.items[s.active[j]].page
  {
    assert forall id :: id in s.active ==> Live(s.items, id);
  }

  lemma HeadResident(s: Sys, id: Id)
    requires QueuesOk(s.items, s.active, s.swapping) && TablesOk(s.procs, s.pt, s.items) && id in s.active
    requires FramesOk(s.frames, s.free, s.pt) && StoresOk(s.frames, s.mem, s.file)
    ensures InFrame(s.pt, s.items[id].page) && s.pt[s.items[id].page].frame in s.mem
  {
    assert Live(s.items, id);
    var p := s.items[id].page;
    assert ResidentAt(s.pt, p, s.pt[p].frame);
  }

  lemma VictimShows(s: Sys, m: Flat)
    requires Inv(s) && Victim(s).Some? && Shows(s, m)
    ensures Shows(Victim(s).value, m)
  {
    hide QueuesOk, TablesOk, FramesOk, MappingsOk, SlotsOk, StoresOk, PutsOk, GetsOk, DirtyOk, CleanOk, LeavingOk,
      ArrivingOk, WaitersOk, Shows, FirstFree;
    ActiveNotRead(s, Head(s));
    VictimKeepsReads(s);
    hide Victim;
    SameShows(s, Victim(s).value, m);
  }

  lemma VictimKeepsReads(s: Sys)
    requires Victim(s).Some? && Head(s) !in s.gets
    ensures var g := Victim(s).value;
      && g.pt == s.pt && g.file == s.file && g.mem == s.mem && g.gets == s.gets
      && (forall id :: id in s.gets ==> (id in s.items <==> id in g.items))
      && (forall id :: id in s.gets && id in s.items ==> g.items[id] == s.items[id])
  {
    hide FirstFree, ColdIndex, Rotate, GiveSlot;
    RotateMoves(s);
    var r := Rotate(s);
    if r.items[Head(s)].slot.None? {
      SlotOnly(r, FirstFree(r.used, 0).value);
    }
  }

  lemma RotateMoves(s: Sys)
    requires Known(s, s.active)
    ensures var r := Rotate(s);
      r.pt == s.pt && r.file == s.file && r.mem == s.mem && r.gets == s.gets && r.items == s.items
  {
  }

  lemma SlotOnly(s: Sys, x: Slot)
    requires Known(s, s.active) && s.active != []
    ensures var g := GiveSlot(s, x);
      && g.pt == s.pt && g.file == s.file && g.mem == s.mem && g.gets == s.gets
      && g.items == s.items[s.active[0] := s.items[s.active[0]].(slot := Some(x))]
  {
  }

  lemma ActiveNotRead(s: Sys, id: Id)
    requires QueuesOk(s.items, s.active, s.swapping) && GetsOk(s.puts, s.gets, s.items, s.swapping) && id in s.active
    ensures id !in s.gets
  {
  }

  /** A thread that can fault: it runs, and waits for nothing. */
  ghost predicate CanFault(s: Sys, p: Page, id: Id) {
    p.tid in s.procs && p.tid !in s.blocked && p.vpn <= STACK_TOP_VPN && id !in s.items
  }

  lemma SwapOutInv(s: Sys, t: Tid, m: Flat)
    requires Inv(s) && t in s.procs && t !in s.blocked && !SwapOut(s, t).Halt? && Shows(s, m)
    ensures Inv(SwapOut(s, t).next) && Shows(SwapOut(s, t).next, m)
  {
    hide Inv, Shows;
    var g := Victim(s).value;
    VictimInv(s);
    VictimShows(s, m);
    if SwapOut(s, t).Pending? {
      WriteOutInv(g, t);
      WriteOutShows(g, t, m);
    } else {
      EvictInv(g);
      EvictShows(g, m);
    }
  }

  lemma WriteOutShows(s: Sys, t: Tid, m: Flat)
    requires Inv(s) && CanWriteOut(s, t) && Shows(s, m)
    ensures Shows(WriteOut(s, t), m)
  {
    hide TablesOk, FramesOk, MappingsOk, SlotsOk, StoresOk, PutsOk, DirtyOk, CleanOk, LeavingOk, ArrivingOk,
      WaitersOk, Shows;
    SameShows(s, WriteOut(s, t), m);
  }

  /** A clean eviction leaves the faulting page and thread as they were. */
  lemma SwapOutFrame(s: Sys, t: Tid, p: Page, id: Id)
    requires SwapOut(s, t).Complete? && Inv(s)
    requires p !in s.pt || s.pt[p].Swapped?
    ensures var s1 := SwapOut(s, t).next;
      && s1.procs == s.procs && s1.blocked == s.blocked && s1.free != []
      && (id !in s.items ==> id !in s1.items)
      && (p in s1.pt <==> p in s.pt) && (p in s.pt ==> s1.pt[p] == s.pt[p])
  {
    hide Inv, ColdIndex;
    VictimInv(s);
    var g := Victim(s).value;
    assert InFrame(g.pt, g.items[g.active[0]].page);
  }

  lemma BlockedOwner(s: Sys, p: Page)
    requires WaitersOk(s.procs, s.blocked, s.items, s.gets) && p.tid !in s.blocked
    ensures Settled(s, p)
  {
    assert forall id :: Arriving(s, id) ==> Awaits(s.items, s.gets, s.items[id].page.tid, id);
  }

  lemma UseFrameInv(s: Sys, p: Page, write: bool, id: Id, m: Flat)
    requires Inv(s) && CanFault(s, p, id) && Shows(s, m) && UseFrame(s, p, write, id).Some?
    ensures Inv(UseFrame(s, p, write, id).value) && Shows(UseFrame(s, p, write, id).value, m)
  {
    hide Inv, Shows, MapPage, SlotsOk, Zero;
    if p !in s.pt {
      var n := AllocNew(s, p, id);
      AllocNewInv(s, p, id);
      AllocNewShows(s, p, id, m);
      assert Settled(n, p) by { NowSettled(n, p); }
      MapPageInv(n, p, write);
      MapPageShows(n, p, write, m);
    } else {
      SwapInInv(s, p, id);
      SwapInShows(s, p, id, m);
    }
  }

  lemma NowSettled(s: Sys, p: Page)
    requires Inv(s) && p.tid !in s.blocked
    ensures Settled(s, p)
  {
    BlockedOwner(s, p);
  }

  /** Page faults keep the invariant and are invisible to every process. */
  lemma FaultInv(s: Sys, p: Page, write: bool, id: Id, m: Flat)
    requires Inv(s) && CanFault(s, p, id) && Shows(s, m) && Fault(s, p, write, id).Some?
    ensures Inv(Fault(s, p, write, id).value) && Shows(Fault(s, p, write, id).value, m)
  {
    hide Inv, Shows, SwapOut, UseFrame, Settled;
    if InFrame(s.pt, p) {
      NowSettled(s, p);
      MapPageInv(s, p, write);
      MapPageShows(s, p, write, m);
    } else if s.free != [] {
      UseFrameInv(s, p, write, id, m);
    } else {
      SwapOutInv(s, p.tid, m);
      if SwapOut(s, p.tid).Complete? {
        SwapOutFrame(s, p.tid, p, id);
        UseFrameInv(SwapOut(s, p.tid).next, p, write, id, m);
      }
    }
  }
}
