/**
 The acknowledgement of one chunk of a swap-out: swap_write_callback keeps the
 invariant and is invisible, whether the page retires, was touched meanwhile,
 or belongs to a process that is gone.
 */
module PagingPut {
  import opened Seqs
  import opened PagingState
  import opened PagingOps
  import opened PagingEvict
  import opened PagingRetire
  import opened PagingFault

  /** PutsOk, except that item `id` has no write in flight any more. */
  ghost predicate PutsDone(puts: map<Request, WriteOp>, gets: map<Id, ReadOp>, items: map<Id, Item>,
      swapping: seq<Id>, id: Id) {
    && (forall r :: r in puts ==>
          r.id != id && r.id in swapping && r.chunk < CHUNKS && OwnsSlot(items, r.id, puts[r].slot))
    && (forall i :: i in swapping && i !in gets && i != id ==>
          && i in items && items[i].slot.Some?
          && Outstanding(puts, i) != {}
          && items[i].toSwap == BATCH_SIZE * |Outstanding(puts, i)|)
  }

  /** The state between the last acknowledgement of `id` and the callback's decision. */
  ghost predicate Drained(s: Sys, id: Id) {
    && id in s.swapping && id !in s.gets && id in s.items && s.items[id].slot.Some?
    && QueuesOk(s.items, s.active, s.swapping)
    && TablesOk(s.procs, s.pt, s.items)
    && FramesOk(s.frames, s.free, s.pt)
    && MappingsOk(s.hw, s.pt)
    && SlotsOk(s.used, s.pt, s.items)
    && StoresOk(s.frames, s.mem, s.file)
    && PutsDone(s.puts, s.gets, s.items, s.swapping, id)
    && GetsOk(s.puts, s.gets, s.items, s.swapping)
    && DirtyOk(s) && CleanOk(s) && LeavingOk(s) && ArrivingOk(s)
    && WaitersOk(s.procs, s.blocked, s.items, s.gets)
  }

  // -------------------------------------------------------------- CountAck

  lemma AckOutstanding(puts: map<Request, WriteOp>, r: Request)
    requires r in puts && r.chunk < CHUNKS
    ensures Outstanding(puts - {r}, r.id) == Outstanding(puts, r.id) - {r.chunk}
    ensures |Outstanding(puts - {r}, r.id)| == |Outstanding(puts, r.id)| - 1
    ensures forall i :: i != r.id ==> Outstanding(puts - {r}, i) == Outstanding(puts, i)
  {
    assert Outstanding(puts - {r}, r.id) == Outstanding(puts, r.id) - {r.chunk};
    assert r.chunk in Outstanding(puts, r.id);
  }

  ghost predicate Acked(s: Sys, r: Request) {
    && r in s.puts && s.puts[r].done && r.chunk < CHUNKS
    && r.id in s.swapping && r.id !in s.gets && r.id in s.items && s.items[r.id].slot.Some?
  }

  lemma AckedHere(s: Sys, r: Request)
    requires r in s.puts && s.puts[r].done
    requires PutsOk(s.puts, s.gets, s.items, s.swapping) && GetsOk(s.puts, s.gets, s.items, s.swapping)
    ensures Acked(s, r)
  {
  }

  lemma AckQueues(s: Sys, r: Request)
    requires QueuesOk(s.items, s.active, s.swapping) && r.id in s.items
    ensures QueuesOk(CountAck(s, r).items, s.active, s.swapping)
  {
  }

  lemma AckSlots(s: Sys, r: Request)
    requires SlotsOk(s.used, s.pt, s.items) && r.id in s.items
    ensures SlotsOk(s.used, s.pt, CountAck(s, r).items)
  {
    assert forall id, y :: OwnsSlot(CountAck(s, r).items, id, y) <==> OwnsSlot(s.items, id, y);
  }

  /** to_swap reaches zero exactly when no write of the item is left. */
  lemma AckPuts(s: Sys, r: Request)
    requires Acked(s, r) && PutsOk(s.puts, s.gets, s.items, s.swapping)
    ensures var c := CountAck(s, r);
      if c.items[r.id].toSwap == 0 then PutsDone(c.puts, c.gets, c.items, c.swapping, r.id)
      else PutsOk(c.puts, c.gets, c.items, c.swapping)
  {
    var c := CountAck(s, r);
    AckOutstanding(s.puts, r);
    assert forall i :: i in s.items && i != r.id ==> c.items[i] == s.items[i];
    if c.items[r.id].toSwap == 0 {
      assert forall q :: q in c.puts && q.id == r.id && q.chunk < CHUNKS ==> q.chunk in Outstanding(c.puts, r.id);
    }
  }

  lemma AckGets(s: Sys, r: Request)
    requires Acked(s, r) && GetsOk(s.puts, s.gets, s.items, s.swapping)
    ensures var c := CountAck(s, r); GetsOk(c.puts, c.gets, c.items, c.swapping)
  {
  }

  lemma AckContents(s: Sys, r: Request)
    requires Acked(s, r) && DirtyOk(s) && CleanOk(s) && ArrivingOk(s)
    ensures var c := CountAck(s, r); DirtyOk(c) && CleanOk(c) && ArrivingOk(c)
  {
    hide Saved, Fetched;
    var c := CountAck(s, r);
    assert forall id :: Live(c.items, id) <==> Live(s.items, id);
    assert forall id :: Arriving(c, id) <==> Arriving(s, id);
    assert forall id :: Leaving(c, id) <==> Leaving(s, id);
  }

  lemma SentAck(puts: map<Request, WriteOp>, file: map<Slot, Bytes>, mem: map<Frame, Bytes>,
                r: Request, x: Option<Slot>, f: Frame)
    requires Sent(puts, file, mem, r.id, x, f) && r in puts && puts[r].done
    ensures Sent(puts - {r}, file, mem, r.id, x, f)
  {
    forall k: nat | k < CHUNKS
      ensures ChunkSent(puts - {r}, r.id, file[x.value], mem[f], k)
    {
      assert ChunkSent(puts, r.id, file[x.value], mem[f], k);
    }
  }

  lemma AckLeaving(s: Sys, r: Request)
    requires Acked(s, r) && LeavingOk(s)
    ensures LeavingOk(CountAck(s, r))
  {
    hide Sent;
    var c := CountAck(s, r);
    assert forall id :: Live(c.items, id) <==> Live(s.items, id);
    forall id | Leaving(c, id) && InFrame(c.pt, c.items[id].page) && c.items[id].page !in c.hw
      ensures Sent(c.puts, c.file, c.mem, id, c.items[id].slot, c.pt[c.items[id].page].frame)
    {
      var f := s.pt[s.items[id].page].frame;
      assert Leaving(s, id);
      if id == r.id {
        SentAck(s.puts, s.file, s.mem, r, s.items[id].slot, f);
      } else {
        SentElsewhere(s.puts, c.puts, s.file, s.mem, id, s.items[id].slot, f);
      }
    }
  }

  lemma AckWaiters(s: Sys, r: Request)
    requires r.id in s.items && WaitersOk(s.procs, s.blocked, s.items, s.gets)
    ensures WaitersOk(s.procs, s.blocked, CountAck(s, r).items, s.gets)
  {
    assert forall t, id :: Awaits(CountAck(s, r).items, s.gets, t, id) <==> Awaits(s.items, s.gets, t, id);
  }

  lemma AckKeeps(s: Sys, r: Request)
    requires Inv(s) && r in s.puts && s.puts[r].done
    ensures Acked(s, r)
    ensures var c := CountAck(s, r); if c.items[r.id].toSwap == 0 then Drained(c, r.id) else Inv(c)
  {
    hide QueuesOk, TablesOk, FramesOk, MappingsOk, SlotsOk, StoresOk, PutsOk, GetsOk, DirtyOk, CleanOk, LeavingOk,
      ArrivingOk, WaitersOk, PutsDone;
    AckedHere(s, r);
    AckQueues(s, r);
    SamePages(s.procs, s.pt, s.items, CountAck(s, r).items);
    AckSlots(s, r);
    AckPuts(s, r);
    AckGets(s, r);
    AckContents(s, r);
    AckLeaving(s, r);
    AckWaiters(s, r);
  }

  // ------------------------------------------------- the item is forgotten

  lemma DropQueues(s: Sys, id: Id)
    requires QueuesOk(s.items, s.active, s.swapping) && id in s.swapping
    ensures var s' := DropSwapping(s, id); QueuesOk(s'.items, s'.active, s'.swapping)
  {
    WithoutNoDup(s.swapping, {id});
  }

  lemma DropPuts(s: Sys, id: Id)
    requires PutsDone(s.puts, s.gets, s.items, s.swapping, id)
    ensures var s' := DropSwapping(s, id); PutsOk(s'.puts, s'.gets, s'.items, s'.swapping)
  {
  }

  lemma DropGets(s: Sys, id: Id)
    requires GetsOk(s.puts, s.gets, s.items, s.swapping) && id !in s.gets
    ensures var s' := DropSwapping(s, id); GetsOk(s'.puts, s'.gets, s'.items, s'.swapping)
  {
  }

  /** Waking the thread that waited for `id`, and nobody else. */
  lemma WakeWaiters(s: Sys, id: Id, items': map<Id, Item>)
    requires WaitersOk(s.procs, s.blocked, s.items, s.gets) && id in s.items && id !in s.gets
    requires forall i :: i in items' && i != id ==> i in s.items && items'[i] == s.items[i]
    requires id in items' ==> items'[id].initiator.None?
    ensures WaitersOk(s.procs, Wake(s.blocked, s.items[id].initiator), items', s.gets)
    ensures WaitersOk(s.procs, s.blocked, items', s.gets)
  {
    var w := s.items[id].initiator;
    forall t, i, j | Awaits(items', s.gets, t, i) && Awaits(items', s.gets, t, j)
      ensures t in s.blocked && i == j && w != Some(t)
    {
      assert Awaits(s.items, s.gets, t, i) && Awaits(s.items, s.gets, t, j);
      assert w == Some(t) ==> Awaits(s.items, s.gets, t, id);
    }
  }

  lemma DropDeletedTables(s: Sys, id: Id)
    requires TablesOk(s.procs, s.pt, s.items) && id in s.items && s.items[id].deleted
    ensures TablesOk(s.procs, s.pt, s.items - {id})
  {
    assert forall i :: Live(s.items - {id}, i) <==> Live(s.items, i);
    forall p | InFrame(s.pt, p) && p.vpn != IPC_VPN
      ensures exists i :: Holds(s.items - {id}, i, p)
    {
      var i :| Holds(s.items, i, p);
      assert Holds(s.items - {id}, i, p);
    }
  }

  lemma DropDeletedSlots(s: Sys, id: Id)
    requires SlotsOk(s.used, s.pt, s.items)
    ensures SlotsOk(s.used, s.pt, s.items - {id})
  {
    assert forall i, y :: OwnsSlot(s.items - {id}, i, y) ==> OwnsSlot(s.items, i, y);
  }

  lemma DropDeletedContents(s: Sys, id: Id, b: set<Tid>)
    requires id in s.items && s.items[id].deleted
    requires DirtyOk(s) && CleanOk(s) && LeavingOk(s) && ArrivingOk(s)
    ensures var s' := DropSwapping(s, id).(blocked := b); DirtyOk(s') && CleanOk(s') && LeavingOk(s') && ArrivingOk(s')
  {
    hide Saved, Sent, Fetched;
    var s' := DropSwapping(s, id).(blocked := b);
    assert forall i :: Live(s'.items, i) <==> Live(s.items, i);
    assert forall i :: Arriving(s', i) <==> Arriving(s, i);
    assert forall i :: Leaving(s', i) <==> Leaving(s, i);
  }

  /** The page's process or range is gone: the item disappears, nothing else changes hands. */
  lemma DropDeletedInv(s: Sys, id: Id)
    requires Drained(s, id) && s.items[id].deleted
    ensures Inv(DropSwapping(s, id))
    ensures Inv(DropSwapping(s, id).(blocked := Wake(s.blocked, s.items[id].initiator)))
  {
    hide QueuesOk, TablesOk, FramesOk, MappingsOk, SlotsOk, StoresOk, PutsOk, GetsOk, DirtyOk, CleanOk, LeavingOk,
      ArrivingOk, WaitersOk, PutsDone;
    DropQueues(s, id);
    DropDeletedTables(s, id);
    DropDeletedSlots(s, id);
    DropPuts(s, id);
    DropGets(s, id);
    WakeWaiters(s, id, s.items - {id});
    DropDeletedContents(s, id, s.blocked);
    DropDeletedContents(s, id, Wake(s.blocked, s.items[id].initiator));
    assert DropSwapping(s, id) == DropSwapping(s, id).(blocked := s.blocked);
  }

  /** Dropping a deleted item is invisible. */
  lemma DropDeletedShows(s: Sys, id: Id, b: set<Tid>, m: Flat)
    requires id in s.items && id !in s.gets && Shows(s, m)
    ensures Shows(DropSwapping(s, id).(blocked := b), m)
  {
    hide Shows;
    SameShows(s, DropSwapping(s, id).(blocked := b), m);
  }

  // -------------------------------------------------- the page is retired

  ghost predicate Ready(s: Sys, id: Id) {
    id in s.items && s.items[id].slot.Some? && !s.items[id].deleted && InFrame(s.pt, s.items[id].page)
  }

  function Retire(s: Sys, id: Id): Sys
    requires Ready(s, id)
  {
    DropSwapping(RetirePage(s, id), id).(blocked := Wake(s.blocked, s.items[id].initiator))
  }

  lemma RetireIsRetired(s: Sys, id: Id)
    requires Drained(s, id) && Ready(s, id)
    ensures Retired(s, Retire(s, id), id)
  {
    hide TablesOk, FramesOk, MappingsOk, SlotsOk, StoresOk, PutsDone, GetsOk, DirtyOk, CleanOk, LeavingOk,
      ArrivingOk, WaitersOk;
  }

  lemma RetireLeaving(s: Sys, s': Sys, id: Id)
    requires Retired(s, s', id) && s'.puts == s.puts
    requires TablesOk(s.procs, s.pt, s.items) && LeavingOk(s)
    ensures LeavingOk(s')
  {
    hide TablesOk, Sent;
    OthersElsewhere(s.procs, s.pt, s.items, id);
    assert forall i :: Leaving(s', i) <==> Leaving(s, i) && i != id;
  }

  lemma RetireInv(s: Sys, id: Id)
    requires Drained(s, id) && Ready(s, id) && s.items[id].page !in s.hw
    ensures Inv(Retire(s, id))
  {
    hide QueuesOk, TablesOk, FramesOk, MappingsOk, SlotsOk, StoresOk, PutsOk, GetsOk, DirtyOk, CleanOk, LeavingOk,
      ArrivingOk, WaitersOk, PutsDone, Retired;
    var s' := Retire(s, id);
    var p, x := s.items[id].page, s.items[id].slot.value;
    DropQueues(s, id);
    RetireTables(s.procs, s.pt, s.items, id, x);
    RetireFrames(s.frames, s.free, s.pt, p, x);
    RetireMappings(s.hw, s.pt, p, x);
    RetireSlots(s.used, s.pt, s.items, id, p, x);
    DropPuts(s, id);
    DropGets(s, id);
    WakeWaiters(s, id, s.items - {id});
    RetireIsRetired(s, id);
    RetireContents(s, s', id);
    RetireLeaving(s, s', id);
  }

  /** With all eight acknowledgements in and the page untouched, slot and frame agree. */
  lemma DrainedSaved(s: Sys, id: Id)
    requires Drained(s, id) && Ready(s, id) && s.items[id].page !in s.hw
    ensures Saved(s.file, s.mem, s.items[id].slot, s.pt[s.items[id].page].frame)
  {
    hide QueuesOk, TablesOk, FramesOk, MappingsOk, SlotsOk, StoresOk, GetsOk, DirtyOk, CleanOk, ArrivingOk, WaitersOk;
    var x, f := s.items[id].slot, s.pt[s.items[id].page].frame;
    assert Leaving(s, id);
    assert Sent(s.puts, s.file, s.mem, id, x, f);
    forall k: nat | k < CHUNKS
      ensures s.file[x.value][k] == s.mem[f][k]
    {
      assert ChunkSent(s.puts, id, s.file[x.value], s.mem[f], k);
    }
  }

  lemma RetireInvisible(s: Sys, id: Id, m: Flat)
    requires Drained(s, id) && Ready(s, id) && s.items[id].page !in s.hw && Shows(s, m)
    ensures Shows(Retire(s, id), m)
  {
    hide QueuesOk, TablesOk, FramesOk, MappingsOk, SlotsOk, StoresOk, PutsDone, GetsOk, DirtyOk, CleanOk, LeavingOk,
      ArrivingOk, WaitersOk, Shows, Retired, Saved;
    DrainedSaved(s, id);
    RetireIsRetired(s, id);
    RetireShows(s, Retire(s, id), id, m);
  }

  // ------------------------------------- the page was touched meanwhile

  function Abandon(s: Sys, id: Id): Sys
    requires id in s.items
  {
    s.(blocked := Wake(s.blocked, s.items[id].initiator),
       swapping := Without1(s.swapping, id), active := s.active + [id],
       items := s.items[id := s.items[id].(initiator := None)])
  }

  lemma AbandonQueues(s: Sys, id: Id)
    requires QueuesOk(s.items, s.active, s.swapping) && id in s.swapping && !s.items[id].deleted
    ensures var s' := Abandon(s, id); QueuesOk(s'.items, s'.active, s'.swapping)
  {
    WithoutNoDup(s.swapping, {id});
    AppendNoDup(s.active, id);
  }

  lemma AbandonSlots(s: Sys, id: Id)
    requires SlotsOk(s.used, s.pt, s.items) && id in s.items
    ensures SlotsOk(s.used, s.pt, Abandon(s, id).items)
  {
    assert forall i, y :: OwnsSlot(Abandon(s, id).items, i, y) <==> OwnsSlot(s.items, i, y);
  }

  lemma AbandonFlights(s: Sys, id: Id)
    requires id in s.items && id !in s.gets
    requires PutsDone(s.puts, s.gets, s.items, s.swapping, id) && GetsOk(s.puts, s.gets, s.items, s.swapping)
    ensures var s' := Abandon(s, id); PutsOk(s'.puts, s'.gets, s'.items, s'.swapping)
    ensures var s' := Abandon(s, id); GetsOk(s'.puts, s'.gets, s'.items, s'.swapping)
  {
  }

  lemma AbandonContents(s: Sys, id: Id)
    requires Ready(s, id) && id in s.swapping && id !in s.gets
    requires DirtyOk(s) && CleanOk(s) && LeavingOk(s) && ArrivingOk(s)
    ensures var s' := Abandon(s, id); DirtyOk(s') && CleanOk(s') && LeavingOk(s') && ArrivingOk(s')
  {
    hide Saved, Sent, Fetched;
    var s' := Abandon(s, id);
    assert Leaving(s, id);
    assert forall i :: Live(s'.items, i) <==> Live(s.items, i);
    assert forall i :: Arriving(s', i) <==> Arriving(s, i);
    assert forall i :: Leaving(s', i) <==> Leaving(s, i) && i != id;
  }

  /** An abandoned swap-out returns the page to the active queue with frame, slot and dirty bit intact. */
  lemma AbandonInv(s: Sys, id: Id)
    requires Drained(s, id) && Ready(s, id)
    ensures Inv(Abandon(s, id))
  {
    hide QueuesOk, TablesOk, FramesOk, MappingsOk, SlotsOk, StoresOk, PutsOk, GetsOk, DirtyOk, CleanOk, LeavingOk,
      ArrivingOk, WaitersOk, PutsDone;
    var s' := Abandon(s, id);
    AbandonQueues(s, id);
    SamePages(s.procs, s.pt, s.items, s'.items);
    AbandonSlots(s, id);
    AbandonFlights(s, id);
    WakeWaiters(s, id, s'.items);
    AbandonContents(s, id);
  }

  lemma AbandonShows(s: Sys, id: Id, m: Flat)
    requires id in s.items && id !in s.gets && Shows(s, m)
    ensures Shows(Abandon(s, id), m)
  {
    hide Shows;
    SameShows(s, Abandon(s, id), m);
  }

  // ---------------------------------------------------------------- PutAck

  lemma DrainedReady(s: Sys, id: Id)
    requires Drained(s, id) && !s.items[id].deleted
    ensures Ready(s, id) && EntryFound(s, id)
  {
    hide MappingsOk, SlotsOk, GetsOk, DirtyOk, CleanOk, LeavingOk, ArrivingOk, WaitersOk, PutsDone;
    assert Live(s.items, id);
    assert ResidentAt(s.pt, s.items[id].page, s.pt[s.items[id].page].frame);
  }

  lemma FinishInv(s: Sys, id: Id, m: Flat)
    requires Drained(s, id) && Shows(s, m)
    requires !s.items[id].deleted ==> Ready(s, id)
    ensures Inv(FinishPut(s, id)) && Shows(FinishPut(s, id), m)
  {
    hide Inv, Shows;
    assert id !in s.gets;
    hide Drained;
    if s.items[id].deleted {
      DropDeletedInv(s, id);
      DropDeletedShows(s, id, s.blocked, m);
      DropDeletedShows(s, id, Wake(s.blocked, s.items[id].initiator), m);
      assert DropSwapping(s, id) == DropSwapping(s, id).(blocked := s.blocked);
    } else if Referenced(s, id) {
      AbandonInv(s, id);
      AbandonShows(s, id, m);
    } else {
      RetireInv(s, id);
      RetireInvisible(s, id, m);
    }
  }

  /** Every acknowledgement of a swap-out finds its item and entry, keeps the invariant and is invisible. */
  lemma PutAckInv(s: Sys, r: Request, m: Flat)
    requires Inv(s) && r in s.puts && s.puts[r].done && Shows(s, m)
    ensures PutAck(s, r).Some? && Inv(PutAck(s, r).value) && Shows(PutAck(s, r).value, m)
  {
    hide Inv, Shows, FinishPut, Drained, EntryFound;
    AckKeeps(s, r);
    var c := CountAck(s, r);
    SameShows(s, c, m);
    if c.items[r.id].toSwap == 0 {
      if !c.items[r.id].deleted {
        DrainedReady(c, r.id);
      }
      FinishInv(c, r.id, m);
    }
  }
}
