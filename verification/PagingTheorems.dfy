/**
 Consequences for every reachable state and every callback: isolation of
 processes, what an acknowledgement may do, late callbacks after deletion, and
 the two situations in which a page fault stops the server.
 */
module PagingTheorems {
  import opened PagingState
  import opened PagingOps
  import opened PagingFault
  import opened PagingPut
  import opened PagingGet
  import opened PagingDelete
  import opened PagingMachine

  /** Exactly one resident entry names frame `f`. */
  ghost predicate HeldOnce(pt: map<Page, Pte>, f: Frame) {
    exists p :: ResidentAt(pt, p, f) && forall q :: ResidentAt(pt, q, f) ==> q == p
  }

  /**
   Isolation, in every reachable state: a frame is either free and named by no entry and
   no mapping, or held by exactly one entry; every mapping shows the frame of its own entry;
   and no two pages, of whatever processes, are mapped to the same frame.
   */
  lemma Isolation(s: Sys, run: seq<Step>)
    requires Init(s) && After(s, run).Some?
    ensures var r := After(s, run).value;
      && (forall f :: f in r.frames ==> (f in r.free <==> !HeldOnce(r.pt, f)))
      && (forall f :: f in r.free ==> f in r.frames && forall p :: !ResidentAt(r.pt, p, f))
      && (forall p :: InFrame(r.pt, p) ==> r.pt[p].frame in r.frames)
      && (forall p :: p in r.hw ==> ResidentAt(r.pt, p, r.hw[p].frame) && r.hw[p].frame !in r.free)
      && (forall p, q :: p in r.hw && q in r.hw && r.hw[p].frame == r.hw[q].frame ==> p == q)
  {
    RunRefines(s, run);
    var r := After(s, run).value;
    hide QueuesOk, TablesOk, SlotsOk, StoresOk, PutsOk, GetsOk, DirtyOk, CleanOk, LeavingOk, ArrivingOk, WaitersOk,
      Shows, After, Init;
    assert forall p :: InFrame(r.pt, p) ==> ResidentAt(r.pt, p, r.pt[p].frame);
    assert forall p :: p in r.hw ==> ResidentAt(r.pt, p, r.hw[p].frame);
  }

  /**
   The queues and the tables agree in every reachable state: a page outside the IPC page is
   resident exactly if one live item in one queue is about it, a clean one in the active
   queue is saved in its slot, and a page mapped writable is dirty.
   */
  lemma QueuesAgree(s: Sys, run: seq<Step>, p: Page)
    requires Init(s) && After(s, run).Some? && p.vpn != IPC_VPN
    ensures var r := After(s, run).value;
      && (InFrame(r.pt, p) <==> exists id :: Holds(r.items, id, p))
      && (forall id, j :: Holds(r.items, id, p) && Holds(r.items, j, p) ==> id == j)
      && (forall id :: id in r.items ==> (id in r.active <==> id !in r.swapping))
      && (forall id :: Holds(r.items, id, p) && id in r.active && !r.pt[p].dirty ==>
            Saved(r.file, r.mem, r.items[id].slot, r.pt[p].frame))
      && (p in r.hw ==> InFrame(r.pt, p) && (r.hw[p].writable ==> r.pt[p].dirty))
  {
    RunRefines(s, run);
    hide FramesOk, SlotsOk, StoresOk, PutsOk, GetsOk, DirtyOk, LeavingOk, ArrivingOk, WaitersOk, Shows, After,
      Init, Saved;
  }

  /** Slot `x` is nobody's but item `id`'s. */
  ghost predicate SoleOwner(s: Sys, id: Id, x: Slot) {
    && OwnsSlot(s.items, id, x) && x in s.used
    && (forall p :: !SwappedTo(s.pt, p, x))
    && (forall j :: OwnsSlot(s.items, j, x) ==> j == id)
  }

  /** Every write in flight goes to a slot that belongs to its own item alone, also after deletion. */
  lemma WritesStayHome(s: Sys, r: Request)
    requires Inv(s) && r in s.puts
    ensures SoleOwner(s, r.id, s.puts[r].slot)
  {
    hide QueuesOk, TablesOk, FramesOk, MappingsOk, StoresOk, GetsOk, DirtyOk, CleanOk, LeavingOk, ArrivingOk, WaitersOk;
    assert OwnsSlot(s.items, r.id, s.puts[r].slot);
  }

  /**
   What one acknowledgement of a swap-out does. The frame is given up exactly if this was the
   last of the eight outstanding chunks, the page is not mapped and was not freed meanwhile.
   */
  lemma PutAckOutcome(s: Sys, r: Request)
    requires Inv(s) && r in s.puts && s.puts[r].done && PutAck(s, r).Some?
    ensures var it := s.items[r.id]; var s' := PutAck(s, r).value; var last := Outstanding(s.puts, r.id) == {r.chunk};
      && it.toSwap == BATCH_SIZE * |Outstanding(s.puts, r.id)|
      && (if last && it.page !in s.hw && !it.deleted then
            s'.pt == s.pt[it.page := Swapped(it.slot.value)] && s'.free == s.free + [s.pt[it.page].frame] &&
              r.id !in s'.items
          else s'.pt == s.pt && s'.free == s.free)
      && (last && it.page in s.hw && !it.deleted ==> s'.active == s.active + [r.id] && s'.items[r.id].slot == it.slot)
      && s'.mem == s.mem && s'.file == s.file && s'.hw == s.hw && s'.used == s.used
  {
    hide Inv, Drained, Outstanding;
    AckKeeps(s, r);
    AckCount(s, r);
    if !s.items[r.id].deleted {
      FrameTaken(s, r.id);
    }
  }

  /** The last outstanding chunk is the one that brings to_swap to zero. */
  lemma AckCount(s: Sys, r: Request)
    requires Inv(s) && r in s.puts
    ensures r.id in s.items && s.items[r.id].toSwap == BATCH_SIZE * |Outstanding(s.puts, r.id)|
    ensures s.items[r.id].toSwap == BATCH_SIZE <==> Outstanding(s.puts, r.id) == {r.chunk}
  {
    hide QueuesOk, TablesOk, FramesOk, MappingsOk, SlotsOk, StoresOk, DirtyOk, CleanOk, LeavingOk,
      ArrivingOk, WaitersOk;
    var o := Outstanding(s.puts, r.id);
    assert r.chunk in o;
    assert |o - {r.chunk}| == |o| - 1;
    assert o - {r.chunk} == {} <==> o == {r.chunk};
  }

  lemma FrameTaken(s: Sys, id: Id)
    requires Inv(s) && Live(s.items, id)
    ensures InFrame(s.pt, s.items[id].page) && s.pt[s.items[id].page].frame !in s.free
  {
    hide QueuesOk, MappingsOk, SlotsOk, StoresOk, PutsOk, GetsOk, DirtyOk, CleanOk, LeavingOk, ArrivingOk, WaitersOk;
    var p := s.items[id].page;
    assert ResidentAt(s.pt, p, s.pt[p].frame);
  }

  /** Everything a process or a frame could notice is the same in both states. */
  predicate SameMemory(s: Sys, s': Sys) {
    && s'.pt == s.pt && s'.hw == s.hw && s'.mem == s.mem && s'.free == s.free
    && s'.used == s.used && s'.file == s.file && s'.active == s.active && s'.procs == s.procs
  }

  /** A callback for an item that is marked deleted touches no frame, no entry, no mapping and no slot. */
  lemma MarkedCallback(s: Sys, step: Step, id: Id)
    requires Enabled(s, step) && id in s.items && s.items[id].deleted
    requires step == ReadAnswered(id) || (step.WriteAcked? && step.req.id == id)
    ensures Apply(s, step).Some? && SameMemory(s, Apply(s, step).value)
  {
    hide PutAck, GetAck, SameMemory;
    if step.WriteAcked? {
      LatePut(s, step.req);
    } else {
      LateGet(s, id, s.gets[id].reply.value);
    }
  }

  lemma LatePut(s: Sys, r: Request)
    requires r.id in s.items && s.items[r.id].deleted
    ensures PutAck(s, r).Some? && SameMemory(s, PutAck(s, r).value)
  {
    hide FinishPut, EntryFound;
    var c := CountAck(s, r);
    assert SameMemory(s, c);
    LateFinish(c, r.id);
  }

  lemma LateFinish(s: Sys, id: Id)
    requires id in s.items && s.items[id].deleted
    ensures SameMemory(s, FinishPut(s, id))
  {
  }

  lemma LateGet(s: Sys, id: Id, data: Chunk)
    requires id in s.items && s.items[id].deleted
    ensures GetAck(s, id, data).Some? && SameMemory(s, GetAck(s, id, data).value)
  {
  }

  /** The search finds no victim, or the victim has no slot and none is free. */
  predicate CannotEvict(s: Sys) {
    s.active == [] ||
    (Known(s, s.active) && s.items[Head(s)].slot.None? && FirstFree(s.used, 0).None?)
  }

  /** A page fault stops the server exactly if it needs a frame, none is free and no page can be evicted. */
  lemma FaultStops(s: Sys, p: Page, write: bool, id: Id, m: Flat)
    requires Inv(s) && Shows(s, m) && Enabled(s, Touch(p, write, id))
    ensures Fault(s, p, write, id).None? <==> !InFrame(s.pt, p) && s.free == [] && CannotEvict(s)
  {
    hide Inv, Shows, FirstFree, Victim, CannotEvict, MapPage, AllocNew, BeginSwapIn, WriteOut, EvictClean;
    if !InFrame(s.pt, p) && s.free == [] {
      VictimExact(s);
      if Victim(s).Some? {
        VictimInv(s);
        if SwapOut(s, p.tid).Complete? {
          SwapOutFrame(s, p.tid, p, id);
        }
      }
    }
  }

  lemma VictimExact(s: Sys)
    requires Inv(s)
    ensures Victim(s).None? <==> CannotEvict(s)
  {
    hide TablesOk, FramesOk, MappingsOk, SlotsOk, StoresOk, PutsOk, GetsOk, DirtyOk, CleanOk, LeavingOk, ArrivingOk,
      WaitersOk, FirstFree;
  }

  /** Callbacks, user accesses and process steps never stop the server. */
  lemma NeverStops(s: Sys, step: Step, m: Flat)
    requires Inv(s) && Shows(s, m) && Enabled(s, step) && !step.Touch?
    ensures Apply(s, step).Some?
  {
    hide Inv, Shows, PutAck, GetAck, Delete, Start, StoreByte;
    match step
    case WriteAcked(r) => PutAckInv(s, r, m);
    case ReadAnswered(id) => GetAckInv(s, id, m);
    case Store(p, off, b) => MappedPage(s, p);
    case IpcStore(t, off, b) => IpcPage(s, Page(t, IPC_VPN));
    case _ =>
  }

  /** A page of the loader that is on its way out and has been mapped again. */
  ghost predicate RetouchedLoaderPage(s: Sys, t: Tid, id: Id) {
    LoaderPageLeaving(s, t, id) && s.items[id].page in s.hw
  }

  /** It suffices for start_process that no page of the loader is mapped again while on its way out. */
  lemma StartSafeIfUntouched(s: Sys, t: Tid)
    requires Inv(s) && forall id :: !RetouchedLoaderPage(s, t, id)
    ensures StartSafe(s, t)
  {
    hide QueuesOk, TablesOk, FramesOk, MappingsOk, SlotsOk, StoresOk, PutsOk, GetsOk, DirtyOk, CleanOk, ArrivingOk,
      WaitersOk, Sent;
    forall id | LoaderPageLeaving(s, t, id)
      ensures Sent(s.puts, s.file, s.mem, id, s.items[id].slot, s.pt[s.items[id].page].frame)
    {
      assert !RetouchedLoaderPage(s, t, id);
    }
  }
}
