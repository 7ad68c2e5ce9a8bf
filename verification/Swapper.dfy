/**
 The pager and the swapper as they run: one object with the server's global
 state, whose methods search, loop and update in place. Each method is proved to
 take the state to exactly the state its transition function gives.
 */
module Swapper {
  import opened Seqs
  import opened PagingState
  import opened PagingOps
  import opened PagingFault
  import opened PagingAnswer

  datatype Status = SwappingPending | SwappingComplete | OutOfSwapSpace | NoPageAvailable
  datatype Reply = Mapped | OutOfFrames | PageNotAvailable | Stopped

  class Server {
    var frames: set<Frame>
    var procs: set<Tid>
    var pt: map<Page, Pte>
    var items: map<Id, Item>
    var active: seq<Id>
    var swapping: seq<Id>
    var free: seq<Frame>
    var used: set<Slot>
    var hw: map<Page, Mapping>
    var mem: map<Frame, Bytes>
    var file: map<Slot, Bytes>
    var puts: map<Request, WriteOp>
    var gets: map<Id, ReadOp>
    var blocked: set<Tid>

    function St(): Sys
      reads this
    {
      Sys(frames, procs, pt, items, active, swapping, free, used, hw, mem, file, puts, gets, blocked)
    }

    /**
     second_chance_select: rotate referenced pages to the tail and unmap them until the head is
     unreferenced. The victim is the oldest unreferenced page, or the original head if every
     page was referenced; the rest is the rotation of the queue that starts behind it.
     */
    method SecondChanceSelect() returns (page: Option<Id>)
      requires Known(St(), active)
      requires forall i, j :: 0 <= i < j < |active| ==> items[active[i]].page != items[active[j]].page
      modifies this`active, this`hw
      ensures old(active) == [] ==> page == None && St() == old(St())
      ensures old(active) != [] ==>
        && page == Some(Head(old(St())))
        && St() == Rotate(old(St())).(active := Rotate(old(St())).active[1..])
    {
      hide Rotate, Searching, PagesOf;
      ghost var s := St();
      ghost var n: nat := 0;
      SearchBegins(s);
      while active != []
        invariant Searching(s, n, active, hw)
        invariant s == old(St()) && (s.active == [] <==> active == []) && (active == [] ==> hw == s.hw)
        decreases |s.active| - n
      {
        SearchingKnown(s, n, active, hw);
        page := Some(active[0]);
        if items[active[0]].page in hw {
          SearchStep(s, n, active, hw);
          hw := hw - {items[active[0]].page};
          active := active[1..] + [active[0]];
          n := n + 1;
        } else {
          SearchEnds(s, n, active, hw);
          active := active[1..];
          return;
        }
      }
      page := None;
    }

    /** allocate_swap_entry: the first free slot, which is marked as used. */
    method AllocateSwapEntry() returns (x: Option<Slot>)
      modifies this`used
      ensures x == FirstFree(old(used), 0)
      ensures used == if x.Some? then old(used) + {x.value} else old(used)
    {
      var i: nat := 0;
      while i < MAX_SWAP_ENTRIES
        invariant i <= MAX_SWAP_ENTRIES && used == old(used)
        invariant FirstFree(used, 0) == FirstFree(used, i)
      {
        if i !in used {
          used := used + {i};
          return Some(i);
        }
        i := i + 1;
      }
      x := None;
    }

    /** frame_alloc: the top of the stack, zeroed. */
    method FrameAlloc() returns (f: Option<Frame>)
      modifies this`free, this`mem
      ensures if old(free) == [] then f == None && free == old(free) && mem == old(mem)
              else
                && f == Some(Top(old(free)))
                && free == old(free)[..|old(free)| - 1] && mem == old(mem)[f.value := Zero()]
    {
      if free == [] {
        return None;
      }
      f := Some(Top(free));
      free := free[..|free| - 1];
      mem := mem[f.value := Zero()];
    }

    /** The loop of nfs_write calls in swap_out: one request per chunk, data copied at the call. */
    method WriteChunks(id: Id, x: Slot, data: Bytes)
      modifies this`puts
      ensures puts == old(puts) + Puts(id, x, data)
    {
      var k: nat := 0;
      while k < CHUNKS
        invariant k <= CHUNKS
        invariant forall r :: r in puts <==> r in old(puts) || (r.id == id && r.chunk < k)
        invariant forall r :: r in puts ==>
          puts[r] == if r.id == id && r.chunk < k then WriteOp(x, data[r.chunk], false) else old(puts)[r]
      {
        puts := puts[Request(id, k) := WriteOp(x, data[k], false)];
        k := k + 1;
      }
      assert puts == old(puts) + Puts(id, x, data);
    }

    /** Selection and slot assignment, the first half of swap_out. */
    method PickVictim() returns (status: Option<Status>, id: Id)
      requires Inv(St())
      modifies this`active, this`hw, this`used, this`items
      ensures status.Some? <==> Victim(old(St())).None?
      ensures status.Some? ==> status.value in {OutOfSwapSpace, NoPageAvailable}
      ensures status.None? ==>
        var g := Victim(old(St())).value; g.active != [] && id == g.active[0] && St() == g.(active := g.active[1..])
    {
      hide Inv, Rotate, FirstFree;
      ghost var s := St();
      ActiveKnown(s);
      id := 0;
      var page := SecondChanceSelect();
      if page.None? {
        return Some(NoPageAvailable), id;
      }
      RotateSame(s);
      id := page.value;
      if items[id].slot.None? {
        var x := AllocateSwapEntry();
        if x.None? {
          return Some(OutOfSwapSpace), id;
        }
        items := items[id := items[id].(slot := x)];
      }
      status := None;
    }

    /** The victim, already out of the queue, is dirty: its chunks are sent and the initiator waits. */
    method BeginWriting(id: Id, initiator: Tid, ghost g: Sys)
      requires HeadReady(g) && g.pt[g.items[g.active[0]].page].frame in g.mem && id == g.active[0]
      requires St() == g.(active := g.active[1..])
      modifies this`items, this`swapping, this`puts, this`blocked
      ensures St() == WriteOut(g, initiator)
    {
      var it := items[id];
      items := items[id := it.(toSwap := PAGESIZE, initiator := Some(initiator))];
      swapping := swapping + [id];
      WriteChunks(id, it.slot.value, mem[pt[it.page].frame]);
      blocked := blocked + {initiator};
    }

    /** The victim is clean: its frame is free at once and the item is gone. */
    method DropClean(id: Id, ghost g: Sys)
      requires HeadReady(g) && id == g.active[0] && St() == g.(active := g.active[1..])
      modifies this`items, this`pt, this`free
      ensures St() == EvictClean(g)
    {
      var it := items[id];
      free := FrameFree(free, pt[it.page].frame);
      pt := pt[it.page := Swapped(it.slot.value)];
      items := items - {id};
    }

    /** swap_out. */
    method SwapOut(initiator: Tid) returns (status: Status)
      requires Inv(St())
      modifies this`active, this`hw, this`used, this`items, this`swapping, this`puts, this`blocked, this`free, this`pt
      ensures match PagingOps.SwapOut(old(St()), initiator)
        case Halt => status in {OutOfSwapSpace, NoPageAvailable}
        case Pending(s) => status == SwappingPending && St() == s
        case Complete(s) => status == SwappingComplete && St() == s
    {
      hide Inv, Victim, WriteOut, EvictClean;
      ghost var s := St();
      var failed, id := PickVictim();
      if failed.Some? {
        return failed.value;
      }
      VictimInv(s);
      if pt[items[id].page].dirty {
        BeginWriting(id, initiator, Victim(s).value);
        status := SwappingPending;
      } else {
        DropClean(id, Victim(s).value);
        status := SwappingComplete;
      }
    }

    /** allocate_new_frame: None if the thread has to wait, or the server stops. */
    method AllocateNewFrame(t: Tid) returns (f: Option<Frame>, stopped: bool)
      requires Inv(St())
      modifies this`active, this`hw, this`used, this`items, this`swapping, this`puts, this`blocked, this`free,
        this`pt, this`mem
      ensures match AllocFrame(old(St()), t)
        case Halt => f == None && stopped
        case Pending(s) => f == None && !stopped && St() == s
        case Complete(s) => && s.free != [] && f == Some(Top(s.free)) && !stopped
                            && St() == s.(free := s.free[..|s.free| - 1], mem := s.mem[Top(s.free) := Zero()])
    {
      hide Inv, PagingOps.SwapOut;
      ghost var s := St();
      stopped := false;
      f := FrameAlloc();
      if f.None? {
        EvictionFrees(s, t);
        var status := SwapOut(t);
        if status == SwappingComplete {
          f := FrameAlloc();
        } else {
          stopped := status != SwappingPending;
        }
      }
    }

    /** A first reference: the new frame becomes the page's, and outside the IPC page it is queued and dirty. */
    method EnterPage(p: Page, f: Frame, id: Id, ghost s: Sys)
      requires s.free != [] && f == Top(s.free) && p !in s.pt
      requires St() == s.(free := s.free[..|s.free| - 1], mem := s.mem[f := Zero()])
      modifies this`pt, this`items, this`active
      ensures St() == AllocNew(s, p, id)
    {
      hide Zero, AllocNew;
      ghost var w := St();
      pt := pt[p := Resident(f, false)];
      if p.vpn != IPC_VPN {
        QueuePage(p, f, id);
      }
      AllocNewIs(s, w, St(), p, id);
    }

    /** A new page joins the queue, and is dirty. */
    method QueuePage(p: Page, f: Frame, id: Id)
      modifies this`pt, this`items, this`active
      ensures pt == old(pt)[p := Resident(f, true)] && active == old(active) + [id]
      ensures items == old(items)[id := Item(p, None, 0, None, false)]
    {
      items := items[id := Item(p, None, 0, None, false)];
      active := active + [id];
      pt := pt[p := Resident(f, true)];
    }

    /** swap_in, with the frame and the item virtual_mapping has just set up. */
    method SwapIn(p: Page, f: Frame, id: Id, ghost s: Sys)
      requires s.free != [] && f == Top(s.free) && p in s.pt && s.pt[p].Swapped?
      requires St() == s.(free := s.free[..|s.free| - 1], mem := s.mem[f := Zero()])
      modifies this`pt, this`items, this`swapping, this`gets, this`blocked
      ensures St() == BeginSwapIn(s, p, id)
      ensures p.tid in blocked && id in gets && gets[id] == ReadOp(s.pt[p].slot, 0, None)
    {
      var x := pt[p].slot;
      pt := pt[p := Resident(f, false)];
      items := items[id := Item(p, Some(x), 0, None, false)];
      swapping := swapping + [id];
      gets := gets[id := ReadOp(x, 0, None)];
      blocked := blocked + {p.tid};
    }

    /** The end of virtual_mapping: write access marks the page dirty, and the page is mapped. */
    method EnterMapping(p: Page, write: bool)
      requires p in pt && pt[p].Resident?
      modifies this`pt, this`hw
      ensures St() == MapPage(old(St()), p, write)
      ensures Granted(St(), p, write)
      ensures forall q :: q != p ==> Untouched(old(St()), St(), q)
    {
      if write {
        pt := pt[p := Resident(pt[p].frame, true)];
      }
      hw := hw[p := Mapping(pt[p].frame, write)];
      assert write || pt == pt[p := Resident(pt[p].frame, pt[p].dirty)];
    }

    /** virtual_mapping. */
    method VirtualMapping(p: Page, write: bool, id: Id) returns (reply: Reply)
      requires Inv(St())
      modifies this
      ensures match Fault(old(St()), p, write, id)
        case None => reply == Stopped
        case Some(s) => reply != Stopped && St() == s
      ensures reply == Mapped ==> Granted(St(), p, write) && blocked == old(blocked)
      ensures reply in {OutOfFrames, PageNotAvailable} ==> p.tid in blocked
      ensures reply == OutOfFrames ==> !old(InFrame(pt, p)) && old(free) == [] && old(VictimDirty(St()))
      ensures reply == PageNotAvailable ==>
        old(p in pt && pt[p].Swapped?) && id in gets && gets[id] == ReadOp(old(pt)[p].slot, 0, None)
      ensures reply != Stopped ==> (reply == Mapped <==> !MustWait(old(St()), p))
    {
      hide Inv, AllocNew, BeginSwapIn, MapPage, AllocFrame, Granted, VictimDirty;
      ghost var s := St();
      if p in pt && pt[p].Resident? {
        EnterMapping(p, write);
        return Mapped;
      }
      AllocKeepsEntry(s, p.tid, p);
      AllocWaits(s, p.tid);
      var f, stopped := AllocateNewFrame(p.tid);
      if f.None? {
        return if stopped then Stopped else OutOfFrames;
      }
      ghost var s1 := AllocFrame(s, p.tid).next;
      if p !in pt {
        EnterPage(p, f.value, id, s1);
        NewPageResident(s1, p, id);
        EnterMapping(p, write);
        reply := Mapped;
      } else {
        SwapIn(p, f.value, id, s1);
        reply := PageNotAvailable;
      }
    }

    /** swap_write_callback for one acknowledged chunk. */
    method SwapWriteCallback(r: Request)
      requires Inv(St()) && r in puts && puts[r].done
      modifies this`puts, this`items, this`swapping, this`active, this`free, this`pt, this`blocked
      ensures PutAck(old(St()), r) == Some(St())
    {
      hide Inv;
      ghost var s := St();
      AckReady(s, r);
      var id := r.id;
      puts := puts - {r};
      items := items[id := items[id].(toSwap := items[id].toSwap - BATCH_SIZE)];
      if items[id].toSwap == 0 {
        FinishSwapOut(id);
      }
    }

    /** The part of swap_write_callback that runs when to_swap has reached zero. */
    method FinishSwapOut(id: Id)
      requires id in items && (!items[id].deleted ==> EntryFound(St(), id))
      modifies this`items, this`swapping, this`active, this`free, this`pt, this`blocked
      ensures St() == FinishPut(old(St()), id)
    {
      hide Without1, FrameFree, Wake;
      if items[id].page !in hw {
        RetireSwapped(id);
      } else {
        KeepTouched(id);
      }
    }

    /** The page is unreferenced: unless it was freed meanwhile, its frame is free and its entry names the slot. */
    method RetireSwapped(id: Id)
      requires id in items && items[id].page !in hw && (!items[id].deleted ==> EntryFound(St(), id))
      modifies this`items, this`swapping, this`free, this`pt, this`blocked
      ensures St() == FinishPut(old(St()), id)
    {
      hide Without1, FrameFree, Wake;
      var it := items[id];
      if !it.deleted {
        free := FrameFree(free, pt[it.page].frame);
        pt := pt[it.page := Swapped(it.slot.value)];
        blocked := Wake(blocked, it.initiator);
      }
      swapping := Without1(swapping, id);
      items := items - {id};
    }

    /** The page was touched meanwhile: the swap-out is abandoned. */
    method KeepTouched(id: Id)
      requires id in items && items[id].page in hw && (!items[id].deleted ==> EntryFound(St(), id))
      modifies this`items, this`swapping, this`active, this`blocked
      ensures St() == FinishPut(old(St()), id)
    {
      hide Without1, Wake;
      var it := items[id];
      swapping := Without1(swapping, id);
      blocked := Wake(blocked, it.initiator);
      if !it.deleted {
        items := items[id := it.(initiator := None)];
        active := active + [id];
      } else {
        items := items - {id};
      }
    }

    /** swap_read_callback with the data of one chunk. */
    method SwapReadCallback(id: Id, data: Chunk)
      requires id in items && (!items[id].deleted ==> EntryFound(St(), id) && 0 <= items[id].toSwap < PAGESIZE)
      modifies this`items, this`swapping, this`active, this`mem, this`gets, this`blocked
      ensures GetAck(old(St()), id, data) == Some(St())
    {
      if items[id].deleted {
        hide Without1;
        swapping := Without1(swapping, id);
        items := items - {id};
        gets := gets - {id};
      } else {
        ReadChunk(id, data);
      }
    }

    /** The part of swap_read_callback for a page that still exists. */
    method ReadChunk(id: Id, data: Chunk)
      requires EntryFound(St(), id) && !items[id].deleted && 0 <= items[id].toSwap < PAGESIZE
      modifies this`items, this`swapping, this`active, this`mem, this`gets, this`blocked
      ensures GetAck(old(St()), id, data) == Some(St())
    {
      hide Without1, LoadChunk;
      var it := items[id];
      mem := mem[pt[it.page].frame := LoadChunk(St(), id, data)];
      items := items[id := it.(toSwap := it.toSwap + BATCH_SIZE)];
      if items[id].toSwap == PAGESIZE {
        FinishSwapIn(id);
      } else {
        gets := gets[id := ReadOp(it.slot.value, items[id].toSwap / BATCH_SIZE, None)];
      }
    }

    /** The page is complete: it becomes active and its owner is answered. */
    method FinishSwapIn(id: Id)
      requires id in items
      modifies this`swapping, this`active, this`gets, this`blocked
      ensures St() == old(St().(swapping := Without1(swapping, id), active := active + [id],
                                gets := gets - {id}, blocked := blocked - {items[id].page.tid}))
    {
      hide Without1;
      swapping := Without1(swapping, id);
      active := active + [id];
      gets := gets - {id};
      blocked := blocked - {items[id].page.tid};
    }

    /** pager_unmap_range: a walk over both table levels. */
    method PagerUnmapRange(t: Tid, lo: nat, hi: nat)
      requires hi <= ALL_PAGES
      modifies this`hw
      ensures St() == UnmapRange(old(St()), t, lo, hi)
    {
      var i: nat := 0;
      while i < FIRST_LEVEL_ENTRIES
        invariant i <= FIRST_LEVEL_ENTRIES
        invariant hw == old(hw) - Visited(old(hw), pt, t, lo, hi, i * SECOND_LEVEL_ENTRIES)
      {
        var j: nat := 0;
        while j < SECOND_LEVEL_ENTRIES
          invariant j <= SECOND_LEVEL_ENTRIES
          invariant hw == old(hw) - Visited(old(hw), pt, t, lo, hi, i * SECOND_LEVEL_ENTRIES + j)
        {
          var v := i * SECOND_LEVEL_ENTRIES + j;
          var p := Page(t, v);
          if lo <= v < hi && p in pt && pt[p].Resident? {
            hw := hw - {p};
          }
          j := j + 1;
        }
        i := i + 1;
      }
    }

    /** swap_free, with its assertion that the slot is in use. */
    method SwapFree(x: Slot)
      requires x in used
      modifies this`used
      ensures used == old(used) - {x}
    {
      used := used - {x};
    }

    /** One page of the walk that frees a range. */
    method FreeEntry(t: Tid, lo: nat, hi: nat, v: Vpn, ghost s: Sys)
      requires SlotsOk(s.used, s.pt, s.items)
      requires Walked(s, St(), t, lo, hi, v)
      modifies this`pt, this`free, this`used
      ensures Walked(s, St(), t, lo, hi, v + 1)
    {
      hide SlotsOk, Cleared, FreeFrames, SwappedSlots, FrameFree;
      var p := Page(t, v);
      WalkNext(s, St(), t, lo, hi, v);
      if lo <= v < hi && p in pt {
        if pt[p].Swapped? {
          SwapFree(pt[p].slot);
        } else {
          free := FrameFree(free, pt[p].frame);
        }
        pt := pt - {p};
      }
    }

    /** The first loop nest of pager_free_all and pager_free_range. */
    method FreeEntries(t: Tid, lo: nat, hi: nat)
      requires SlotsOk(used, pt, items) && hi <= ALL_PAGES
      modifies this`pt, this`free, this`used
      ensures pt == Cleared(old(pt), t, lo, hi) && free == FreeFrames(old(free), old(pt), t, lo, hi)
      ensures used == old(used) - SwappedSlots(old(pt), t, lo, hi)
    {
      hide SlotsOk, Walked;
      ghost var s := St();
      WalkBegins(s, t, lo, hi);
      var i: nat := 0;
      while i < FIRST_LEVEL_ENTRIES
        invariant i <= FIRST_LEVEL_ENTRIES && Walked(s, St(), t, lo, hi, i * SECOND_LEVEL_ENTRIES)
      {
        var j: nat := 0;
        while j < SECOND_LEVEL_ENTRIES
          invariant j <= SECOND_LEVEL_ENTRIES && Walked(s, St(), t, lo, hi, i * SECOND_LEVEL_ENTRIES + j)
        {
          FreeEntry(t, lo, hi, i * SECOND_LEVEL_ENTRIES + j, s);
          j := j + 1;
        }
        i := i + 1;
      }
      WalkEnds(s, St(), t, lo, hi);
    }

    /** An active item of the range leaves the queue and gives up its slot. */
    method DropActive(pos: nat)
      requires pos < |active| && active[pos] in items
      requires items[active[pos]].slot.Some? ==> items[active[pos]].slot.value in used
      modifies this`active, this`items, this`used
      ensures active == old(active[..pos] + active[pos + 1..]) && items == old(items - {active[pos]})
      ensures used == old(if items[active[pos]].slot.Some? then used - {items[active[pos]].slot.value} else used)
    {
      var id := active[pos];
      var it := items[id];
      active := active[..pos] + active[pos + 1..];
      if it.slot.Some? {
        SwapFree(it.slot.value);
      }
      items := items - {id};
    }

    /** The second loop: active items of the range leave the queue, with their slots, and are freed. */
    method FreeActive(t: Tid, lo: nat, hi: nat)
      requires Known(St(), active) && NoDup(active) && SlotsApart(items, active, used)
      modifies this`active, this`items, this`used
      ensures var drop := ActiveWithin(old(St()), t, lo, hi);
        && active == Without(old(active), drop)
        && items == old(items) - drop
        && used == old(used) - ItemSlots(old(items), drop)
    {
      hide Purged, SlotsApart, ItemSlots, Without, ActiveWithin, Known, NoDup, Elems;
      ghost var s, drop := St(), ActiveWithin(St(), t, lo, hi);
      ActiveWithinIs(s, t, lo, hi);
      var pos: nat := 0;
      ghost var k: nat := 0;
      PurgeBegins(s, drop);
      while pos < |active|
        invariant St() == s.(active := active, items := items, used := used)
        invariant Purged(s, drop, k, pos, active, items, used)
        decreases |active| - pos
      {
        PurgeHead(s, drop, k, pos, active, items, used);
        if Within(items[active[pos]].page, t, lo, hi) {
          PurgeDrop(s, drop, k, pos, active, items, used);
          DropActive(pos);
        } else {
          PurgeKeep(s, drop, k, pos, active, items, used);
          pos := pos + 1;
        }
        k := k + 1;
      }
      PurgeEnds(s, drop, k, pos, active, items, used);
    }

    /** The third loop: items in flight are marked, and do not call back the thread that is gone. */
    method CancelFlights(t: Tid, lo: nat, hi: nat, all: bool)
      requires Known(St(), swapping) && NoDup(swapping)
      modifies this`items
      ensures items == map id | id in old(items) ::
        if id in swapping then Cancel(old(items)[id], t, lo, hi, all) else old(items)[id]
    {
      var k: nat := 0;
      while k < |swapping|
        invariant k <= |swapping|
        invariant forall id :: id in items <==> id in old(items)
        invariant forall id :: id in items ==>
          items[id] == if id in swapping[..k] then Cancel(old(items)[id], t, lo, hi, all) else old(items)[id]
      {
        var id := swapping[k];
        assert swapping[..k + 1] == swapping[..k] + [id];
        assert id !in swapping[..k];
        items := items[id := Cancel(items[id], t, lo, hi, all)];
        k := k + 1;
      }
      assert swapping[..k] == swapping;
    }

    /** pager_free_all (`all`) and pager_free_range. */
    method PagerFreeRange(t: Tid, lo: nat, hi: nat, all: bool)
      requires QueuesOk(items, active, swapping) && SlotsOk(used, pt, items) && hi <= ALL_PAGES
      modifies this`pt, this`free, this`used, this`active, this`items
      ensures St() == FreeRange(old(St()), t, lo, hi, all)
    {
      hide QueuesOk, SlotsOk, Cleared, FreeFrames, SwappedSlots, ItemSlots, ActiveWithin, Without, NoDup,
        SlotsApart, Cancel;
      ghost var s := St();
      FreeEntries(t, lo, hi);
      ActiveReady(s, t, lo, hi);
      SameActive(s, St(), t, lo, hi);
      FreeActive(t, lo, hi);
      SwappingReady(s, t, lo, hi);
      CancelFlights(t, lo, hi, all);
    }

    /** The memory part of delete_process. */
    method DeleteProcess(t: Tid)
      requires Inv(St())
      modifies this`hw, this`pt, this`free, this`used, this`active, this`items, this`procs, this`blocked
      ensures St() == Delete(old(St()), t)
    {
      QueuesAndSlots(St());
      hide Inv, QueuesOk, SlotsOk, FreeRange, UnmapRange;
      ghost var s := St();
      PagerUnmapRange(t, 0, STACK_TOP_VPN);
      PagerFreeRange(t, 0, ALL_PAGES, true);
      procs := procs - {t};
      blocked := blocked - {t};
    }

    /** The memory part of start_process: all mappings go, then the heap's once more, then its pages. */
    method StartProcess(t: Tid)
      requires Inv(St())
      modifies this`hw, this`pt, this`free, this`used, this`active, this`items
      ensures St() == Start(old(St()), t)
    {
      QueuesAndSlots(St());
      hide Inv, QueuesOk, SlotsOk, FreeRange, UnmapRange;
      ghost var s := St();
      PagerUnmapRange(t, 0, STACK_TOP_VPN);
      PagerUnmapRange(t, HEAP_START_VPN, HEAP_END_VPN);
      PagerFreeRange(t, HEAP_START_VPN, HEAP_END_VPN, false);
    }
  }

  lemma QueuesAndSlots(s: Sys)
    requires Inv(s)
    ensures QueuesOk(s.items, s.active, s.swapping) && SlotsOk(s.used, s.pt, s.items)
  {
    hide QueuesOk, TablesOk, FramesOk, MappingsOk, SlotsOk, StoresOk, PutsOk, GetsOk, DirtyOk, CleanOk, LeavingOk,
      ArrivingOk, WaitersOk;
  }

  lemma SameActive(s: Sys, w: Sys, t: Tid, lo: nat, hi: nat)
    requires w.active == s.active && w.items == s.items
    ensures ActiveWithin(w, t, lo, hi) == ActiveWithin(s, t, lo, hi)
  {
  }

  /** The slots of active items survive the first loop. */
  lemma ActiveReady(s: Sys, t: Tid, lo: nat, hi: nat)
    requires QueuesOk(s.items, s.active, s.swapping) && SlotsOk(s.used, s.pt, s.items)
    ensures Known(s, s.active) && NoDup(s.active)
    ensures SlotsApart(s.items, s.active, s.used - SwappedSlots(s.pt, t, lo, hi))
  {
    assert forall id :: id in s.active && s.items[id].slot.Some? ==> OwnsSlot(s.items, id, s.items[id].slot.value);
    assert forall p :: p in s.pt && s.pt[p].Swapped? ==> SwappedTo(s.pt, p, s.pt[p].slot);
  }

  lemma SwappingReady(s: Sys, t: Tid, lo: nat, hi: nat)
    requires QueuesOk(s.items, s.active, s.swapping)
    ensures NoDup(s.swapping) && forall id :: id in s.swapping ==> id in s.items - ActiveWithin(s, t, lo, hi)
  {
  }

  /** Slots of queued items are in use, and no two items share one. */
  ghost predicate SlotsApart(items: map<Id, Item>, q: seq<Id>, used: set<Slot>) {
    && (forall id :: id in q ==> id in items)
    && (forall id :: id in q && items[id].slot.Some? ==> items[id].slot.value in used)
    && (forall id, id' :: id in q && id' in q && items[id].slot.Some? && items[id].slot == items[id'].slot ==>
          id == id')
  }

  lemma ActiveWithinIs(s: Sys, t: Tid, lo: nat, hi: nat)
    requires Known(s, s.active)
    ensures forall id :: id in ActiveWithin(s, t, lo, hi) <==> id in s.active && Within(s.items[id].page, t, lo, hi)
  {
  }

  /** Taking the frame and entering the page make up one transition. */
  lemma AllocNewIs(s: Sys, w: Sys, r: Sys, p: Page, id: Id)
    requires s.free != [] && w == s.(free := s.free[..|s.free| - 1], mem := s.mem[Top(s.free) := Zero()])
    requires r == if p.vpn == IPC_VPN then w.(pt := w.pt[p := Resident(Top(s.free), false)])
                  else w.(pt := w.pt[p := Resident(Top(s.free), false)][p := Resident(Top(s.free), true)],
                          items := w.items[id := Item(p, None, 0, None, false)], active := w.active + [id])
    ensures r == AllocNew(s, p, id)
  {
    hide Zero;
    assert w.pt[p := Resident(Top(s.free), false)][p := Resident(Top(s.free), true)] ==
      w.pt[p := Resident(Top(s.free), true)];
  }

  /** Queue `q` after the decision on its first `k` items, which leaves `pos` of them. */
  ghost predicate Passed(q: seq<Id>, drop: set<Id>, k: nat, pos: nat, active: seq<Id>) {
    && k <= |q|
    && active == Without(q[..k], drop) + q[k..] && pos == |Without(q[..k], drop)|
  }

  lemma PassedHead(q: seq<Id>, drop: set<Id>, k: nat, pos: nat, active: seq<Id>)
    requires Passed(q, drop, k, pos, active) && pos < |active|
    ensures k < |q| && active[pos] == q[k]
  {
    hide Without;
  }

  lemma WithoutStep(q: seq<Id>, drop: set<Id>, k: nat)
    requires k < |q|
    ensures Without(q[..k + 1], drop) == Without(q[..k], drop) + if q[k] in drop then [] else [q[k]]
  {
    assert q[..k + 1] == q[..k] + [q[k]];
    WithoutAppend(q[..k], [q[k]], drop);
  }

  lemma PassedStep(q: seq<Id>, drop: set<Id>, k: nat, pos: nat, active: seq<Id>)
    requires Passed(q, drop, k, pos, active) && pos < |active|
    ensures if active[pos] in drop then Passed(q, drop, k + 1, pos, active[..pos] + active[pos + 1..])
            else Passed(q, drop, k + 1, pos + 1, active)
  {
    PassedHead(q, drop, k, pos, active);
    WithoutStep(q, drop, k);
    hide Without;
    assert q[k..] == [q[k]] + q[k + 1..];
  }

  /** The items of `drop` among the first `k` of the queue. */
  ghost function Gone(q: seq<Id>, drop: set<Id>, k: nat): set<Id>
    requires k <= |q|
  {
    drop * Elems(q[..k])
  }

  lemma GoneStep(q: seq<Id>, drop: set<Id>, k: nat)
    requires k < |q|
    ensures Gone(q, drop, k + 1) == Gone(q, drop, k) + if q[k] in drop then {q[k]} else {}
    ensures NoDup(q) ==> q[k] !in Gone(q, drop, k)
  {
    assert q[..k + 1] == q[..k] + [q[k]];
  }

  /** The second loop after `k` items of the queue of `s`, standing at position `pos` of what is left. */
  ghost predicate Purged(s: Sys, drop: set<Id>, k: nat, pos: nat, active: seq<Id>, items: map<Id, Item>,
      used: set<Slot>) {
    && NoDup(s.active) && SlotsApart(s.items, s.active, s.used)
    && (forall id :: id in drop ==> id in s.active)
    && Passed(s.active, drop, k, pos, active)
    && items == s.items - Gone(s.active, drop, k)
    && used == s.used - ItemSlots(s.items, Gone(s.active, drop, k))
  }

  lemma PurgeBegins(s: Sys, drop: set<Id>)
    requires NoDup(s.active) && SlotsApart(s.items, s.active, s.used) && forall id :: id in drop ==> id in s.active
    ensures Purged(s, drop, 0, 0, s.active, s.items, s.used)
  {
    hide SlotsApart;
    assert s.active == Without(s.active[..0], drop) + s.active[0..];
    assert Gone(s.active, drop, 0) == {};
  }

  lemma ItemSlotsAdd(items: map<Id, Item>, ids: set<Id>, id: Id)
    requires id in items
    ensures ItemSlots(items, ids + {id}) == ItemSlots(items, ids) + if items[id].slot.Some?
      then {items[id].slot.value} else {}
  {
  }

  /** The item at hand is the next one of the original queue, untouched so far. */
  lemma PurgeHead(s: Sys, drop: set<Id>, k: nat, pos: nat, active: seq<Id>, items: map<Id, Item>, used: set<Slot>)
    requires Purged(s, drop, k, pos, active, items, used) && pos < |active|
    ensures k < |s.active| && active[pos] == s.active[k] && active[pos] in items &&
      items[active[pos]] == s.items[active[pos]]
    ensures items[active[pos]].slot.Some? ==> items[active[pos]].slot.value in used
  {
    hide Passed, Gone, Without, NoDup, Elems;
    PassedHead(s.active, drop, k, pos, active);
    GoneStep(s.active, drop, k);
    assert s.active[k] in s.active;
    OthersGone(s, drop, k);
  }

  /** No item that left the queue had the slot of the one at hand. */
  lemma OthersGone(s: Sys, drop: set<Id>, k: nat)
    requires k < |s.active| && NoDup(s.active) && SlotsApart(s.items, s.active, s.used)
    ensures s.active[k] in s.items
    ensures var it := s.items[s.active[k]];
      it.slot.Some? ==> it.slot.value !in ItemSlots(s.items, Gone(s.active, drop, k))
  {
    GoneStep(s.active, drop, k);
    hide NoDup;
    assert forall id :: id in Gone(s.active, drop, k) ==> id in s.active;
    hide Gone, Elems;
    assert s.active[k] in s.active;
  }

  lemma PurgeKeep(s: Sys, drop: set<Id>, k: nat, pos: nat, active: seq<Id>, items: map<Id, Item>, used: set<Slot>)
    requires Purged(s, drop, k, pos, active, items, used) && pos < |active| && active[pos] !in drop
    ensures Purged(s, drop, k + 1, pos + 1, active, items, used)
  {
    hide SlotsApart, Passed, Gone, Elems, ItemSlots, Without, NoDup;
    PassedHead(s.active, drop, k, pos, active);
    PassedStep(s.active, drop, k, pos, active);
    GoneStep(s.active, drop, k);
    assert Gone(s.active, drop, k + 1) == Gone(s.active, drop, k);
  }

  lemma PurgeDrop(s: Sys, drop: set<Id>, k: nat, pos: nat, active: seq<Id>, items: map<Id, Item>, used: set<Slot>)
    requires Purged(s, drop, k, pos, active, items, used) && pos < |active| && active[pos] in drop
    requires active[pos] in items
    ensures var id := active[pos];
      Purged(s, drop, k + 1, pos, active[..pos] + active[pos + 1..], items - {id},
             if items[id].slot.Some? then used - {items[id].slot.value} else used)
  {
    hide SlotsApart, Passed, Gone, Elems, ItemSlots, Without, NoDup;
    PurgeHead(s, drop, k, pos, active, items, used);
    PassedStep(s.active, drop, k, pos, active);
    GoneStep(s.active, drop, k);
    var gone, id := Gone(s.active, drop, k), s.active[k];
    ItemSlotsAdd(s.items, gone, id);
    assert s.items - (gone + {id}) == s.items - gone - {id};
  }

  lemma PurgeEnds(s: Sys, drop: set<Id>, k: nat, pos: nat, active: seq<Id>, items: map<Id, Item>, used: set<Slot>)
    requires Purged(s, drop, k, pos, active, items, used) && pos >= |active|
    ensures active == Without(s.active, drop) && items == s.items - drop && used == s.used - ItemSlots(s.items, drop)
  {
    hide SlotsApart;
    assert s.active[..k] == s.active;
    assert Gone(s.active, drop, k) == drop;
  }

  const FIRST_LEVEL_ENTRIES := 4096
  const SECOND_LEVEL_ENTRIES := 256

  /** The mappings pager_unmap_range has removed once it has passed page number `v`. */
  function Visited(hw: map<Page, Mapping>, pt: map<Page, Pte>, t: Tid, lo: nat, hi: nat, v: nat): set<Page> {
    set p | p in hw && Within(p, t, lo, hi) && p.vpn < v && p in pt && pt[p].Resident?
  }

  function Min(a: nat, b: nat): nat { if a < b then a else b }

  /** State `w` of the walk that began in `s` and has passed page number `v`. */
  ghost predicate Walked(s: Sys, w: Sys, t: Tid, lo: nat, hi: nat, v: nat) {
    && w == s.(pt := w.pt, free := w.free, used := w.used)
    && w.pt == Cleared(s.pt, t, lo, Min(v, hi))
    && w.free == FreeFrames(s.free, s.pt, t, lo, Min(v, hi))
    && w.used == s.used - SwappedSlots(s.pt, t, lo, Min(v, hi))
  }

  lemma WalkBegins(s: Sys, t: Tid, lo: nat, hi: nat)
    ensures Walked(s, s, t, lo, hi, 0)
  {
  }

  lemma WalkEnds(s: Sys, w: Sys, t: Tid, lo: nat, hi: nat)
    requires Walked(s, w, t, lo, hi, FIRST_LEVEL_ENTRIES * SECOND_LEVEL_ENTRIES) && hi <= ALL_PAGES
    ensures w == s.(pt := Cleared(s.pt, t, lo, hi), free := FreeFrames(s.free, s.pt, t, lo, hi),
                    used := s.used - SwappedSlots(s.pt, t, lo, hi))
  {
    hide Cleared, FreeFrames, SwappedSlots;
  }

  /** What visiting page `v` has to do to tables, frames and slots, and that swap_free may be called. */
  lemma WalkNext(s: Sys, w: Sys, t: Tid, lo: nat, hi: nat, v: nat)
    requires SlotsOk(s.used, s.pt, s.items) && Walked(s, w, t, lo, hi, v)
    ensures var p := Page(t, v);
      if lo <= v < hi && p in w.pt then
        && p in s.pt && w.pt[p] == s.pt[p]
        && Cleared(s.pt, t, lo, v + 1) == w.pt - {p}
        && FreeFrames(s.free, s.pt, t, lo, v + 1) ==
           (if w.pt[p].Resident? then FrameFree(w.free, w.pt[p].frame) else w.free)
        && s.used - SwappedSlots(s.pt, t, lo, v + 1) == (if w.pt[p].Swapped? then w.used - {w.pt[p].slot} else w.used)
        && (w.pt[p].Swapped? ==> w.pt[p].slot in w.used)
      else Walked(s, w, t, lo, hi, v + 1)
  {
    var p := Page(t, v);
    if lo <= v < hi {
      assert Cleared(s.pt, t, lo, v + 1) == w.pt - {p};
      if p in s.pt && s.pt[p].Swapped? {
        assert SwappedTo(s.pt, p, s.pt[p].slot);
        OtherSlots(s, t, lo, v, p);
      }
    } else {
      assert Cleared(s.pt, t, lo, Min(v + 1, hi)) == w.pt;
      assert SwappedSlots(s.pt, t, lo, Min(v + 1, hi)) == SwappedSlots(s.pt, t, lo, Min(v, hi));
    }
  }

  lemma OtherSlots(s: Sys, t: Tid, lo: nat, hi: nat, p: Page)
    requires SlotsOk(s.used, s.pt, s.items) && p in s.pt && s.pt[p].Swapped? && !Within(p, t, lo, hi)
    ensures s.pt[p].slot !in SwappedSlots(s.pt, t, lo, hi)
  {
    assert SwappedTo(s.pt, p, s.pt[p].slot);
    assert forall q :: q in s.pt && s.pt[q].Swapped? ==> SwappedTo(s.pt, q, s.pt[q].slot);
  }

  lemma EvictionFrees(s: Sys, t: Tid)
    ensures PagingOps.SwapOut(s, t).Complete? ==> PagingOps.SwapOut(s, t).next.free != []
  {
  }

  /** A page that is not resident is still not resident, and has the same entry, when a frame was found. */
  lemma AllocKeepsEntry(s: Sys, t: Tid, p: Page)
    requires Inv(s) && (p !in s.pt || s.pt[p].Swapped?)
    ensures AllocFrame(s, t).Complete? ==>
      var s1 := AllocFrame(s, t).next;
      && s1.free != [] && s1.blocked == s.blocked
      && (p in s1.pt <==> p in s.pt) && (p in s.pt ==> s1.pt[p] == s.pt[p])
  {
    hide Inv;
    if s.free == [] && PagingOps.SwapOut(s, t).Complete? {
      SwapOutFrame(s, t, p, 0);
    }
  }

  /** A frame has to be waited for exactly if none is free and the victim is dirty. */
  lemma AllocWaits(s: Sys, t: Tid)
    requires Inv(s)
    ensures !AllocFrame(s, t).Halt? ==> (AllocFrame(s, t).Pending? <==> s.free == [] && VictimDirty(s))
    ensures AllocFrame(s, t).Pending? ==> t in AllocFrame(s, t).next.blocked
  {
    hide Inv, PagingOps.SwapOut, VictimDirty;
    if s.free == [] && !PagingOps.SwapOut(s, t).Halt? {
      FrameSought(s, t);
    }
  }

  lemma NewPageResident(s: Sys, p: Page, id: Id)
    requires s.free != []
    ensures InFrame(AllocNew(s, p, id).pt, p) && AllocNew(s, p, id).blocked == s.blocked
  {
    hide Zero, Top;
    if p.vpn == IPC_VPN {
      assert AllocNew(s, p, id).items == s.items;
    }
  }

  lemma AckReady(s: Sys, r: Request)
    requires Inv(s) && r in s.puts && s.puts[r].done
    ensures r.id in s.items && (!s.items[r.id].deleted ==> EntryFound(s, r.id))
  {
    hide MappingsOk, DirtyOk, CleanOk, LeavingOk, ArrivingOk, WaitersOk;
    if !s.items[r.id].deleted {
      assert Live(s.items, r.id);
      assert ResidentAt(s.pt, s.items[r.id].page, s.pt[s.items[r.id].page].frame);
    }
  }

  lemma ActiveKnown(s: Sys)
    requires Inv(s)
    ensures Known(s, s.active)
    ensures forall i, j :: 0 <= i < j < |s.active| ==> s.items[s.active[i]].page != s.items[s.active[j]].page
  {
    hide FramesOk, MappingsOk, SlotsOk, StoresOk, PutsOk, GetsOk, DirtyOk, CleanOk, LeavingOk, ArrivingOk, WaitersOk;
    ActivePagesDiffer(s);
  }

  /** The search changes only the queue's order and the mappings. */
  lemma RotateSame(s: Sys)
    requires Known(s, s.active)
    ensures Rotate(s) == s.(active := Rotate(s).active, hw := Rotate(s).hw)
  {
  }

  /** After `n` rotations of the search that began in state `s`. */
  ghost predicate Searching(s: Sys, n: nat, active: seq<Id>, hw: map<Page, Mapping>) {
    && Known(s, s.active) && n <= |s.active|
    && (forall i, j :: 0 <= i < j < |s.active| ==> s.items[s.active[i]].page != s.items[s.active[j]].page)
    && active == s.active[n..] + s.active[..n]
    && (forall j :: 0 <= j < n ==> Referenced(s, s.active[j]))
    && hw == s.hw - PagesOf(s, s.active[..n])
  }

  lemma SearchBegins(s: Sys)
    requires Known(s, s.active)
    requires forall i, j :: 0 <= i < j < |s.active| ==> s.items[s.active[i]].page != s.items[s.active[j]].page
    ensures Searching(s, 0, s.active, s.hw)
  {
    assert s.hw == s.hw - PagesOf(s, s.active[..0]);
  }

  lemma SearchingKnown(s: Sys, n: nat, active: seq<Id>, hw: map<Page, Mapping>)
    requires Searching(s, n, active, hw) && active != []
    ensures active[0] in s.items && n <= |s.active|
  {
    assert active[0] in s.active[n..] + s.active[..n];
  }

  lemma AllVisited(s: Sys, active: seq<Id>, hw: map<Page, Mapping>)
    requires Searching(s, |s.active|, active, hw) && active != [] && active[0] in s.items
    ensures s.items[active[0]].page !in hw
  {
    assert active[0] in s.active[..|s.active|];
  }

  /** A referenced head means that not all pages were visited; it goes to the tail, unmapped. */
  lemma SearchStep(s: Sys, n: nat, active: seq<Id>, hw: map<Page, Mapping>)
    requires Searching(s, n, active, hw) && active != [] && active[0] in s.items && s.items[active[0]].page in hw
    ensures n < |s.active| && Searching(s, n + 1, active[1..] + [active[0]], hw - {s.items[active[0]].page})
    ensures active[1..] + [active[0]] != []
  {
    var q := s.active;
    if n == |q| {
      AllVisited(s, active, hw);
      assert false;
    }
    assert active[0] == q[n];
    assert active[1..] + [active[0]] == q[n + 1..] + q[..n + 1];
    assert q[..n + 1] == q[..n] + [q[n]];
    assert PagesOf(s, q[..n + 1]) == PagesOf(s, q[..n]) + {s.items[q[n]].page};
    assert hw - {s.items[q[n]].page} == s.hw - PagesOf(s, q[..n + 1]);
  }

  lemma ColdIndexIs(s: Sys, q: seq<Id>, n: nat)
    requires Known(s, q) && n <= |q|
    requires forall j :: 0 <= j < n ==> Referenced(s, q[j])
    requires n < |q| ==> !Referenced(s, q[n])
    ensures ColdIndex(s, q) == n
  {
    hide Referenced;
    if n > 0 {
      ColdIndexIs(s, q[1..], n - 1);
    }
  }

  /** A head that the search found unreferenced was unreferenced from the start, unless the search went around. */
  lemma HeadCold(s: Sys, n: nat, active: seq<Id>, hw: map<Page, Mapping>)
    requires Searching(s, n, active, hw) && active != [] && active[0] in s.items && s.items[active[0]].page !in hw
    requires n < |s.active|
    ensures active[0] == s.active[n] && !Referenced(s, s.active[n])
  {
    assert active[0] == s.active[n];
    assert s.items[s.active[n]].page !in PagesOf(s, s.active[..n]);
  }

  /** An unreferenced head is the victim the transition function selects. */
  lemma SearchEnds(s: Sys, n: nat, active: seq<Id>, hw: map<Page, Mapping>)
    requires Searching(s, n, active, hw) && active != [] && active[0] in s.items && s.items[active[0]].page !in hw
    ensures s.active != [] && Head(s) == active[0]
    ensures Rotate(s) == s.(active := active, hw := hw)
  {
    var q := s.active;
    hide PagesOf, Referenced, ColdIndex;
    if n < |q| {
      HeadCold(s, n, active, hw);
    }
    ColdIndexIs(s, q, n);
    assert q[|q|..] + q[..|q|] == q == q[0..] + q[..0];
  }
}
