/**
 Making room: second-chance selection, the assignment of a swap slot, the start
 of a swap-out and the eviction of a clean page keep the invariant and the
 memory that processes see.
 */
module PagingEvict {
  import opened Seqs
  import opened PagingState
  import opened PagingOps

  /** Item updates that keep page and deletion mark do not concern the page tables. */
  lemma SamePages(procs: set<Tid>, pt: map<Page, Pte>, items: map<Id, Item>, items': map<Id, Item>)
    requires TablesOk(procs, pt, items)
    requires forall id :: id in items <==> id in items'
    requires forall id :: id in items ==> items'[id].page == items[id].page && items'[id].deleted == items[id].deleted
    ensures TablesOk(procs, pt, items')
  {
    assert forall id :: Live(items', id) <==> Live(items, id);
    forall p | InFrame(pt, p) && p.vpn != IPC_VPN
      ensures exists id :: Holds(items', id, p)
    {
      var id :| Holds(items, id, p);
      assert Holds(items', id, p);
    }
  }

  /** Requests of other items do not matter for what was sent of item `id`. */
  lemma SentElsewhere(puts: map<Request, WriteOp>, puts': map<Request, WriteOp>, file: map<Slot, Bytes>,
                      mem: map<Frame, Bytes>, id: Id, x: Option<Slot>, f: Frame)
    requires forall r: Request :: r.id == id ==> (r in puts <==> r in puts')
    requires forall r: Request :: r.id == id && r in puts ==> puts'[r] == puts[r]
    requires Sent(puts, file, mem, id, x, f)
    ensures Sent(puts', file, mem, id, x, f)
  {
    forall k: nat | k < CHUNKS
      ensures ChunkSent(puts', id, file[x.value], mem[f], k)
    {
      assert ChunkSent(puts, id, file[x.value], mem[f], k);
    }
  }

  // ---------------------------------------------------------------- Rotate

  /** The victim is unreferenced once the search is over, whatever the queue looked like. */
  lemma HeadUnreferenced(s: Sys)
    requires Known(s, s.active) && s.active != []
    requires forall i, j :: 0 <= i < j < |s.active| ==> s.items[s.active[i]].page != s.items[s.active[j]].page
    ensures !Referenced(Rotate(s), Head(s))
  {
    var i := ColdIndex(s, s.active);
    if i == |s.active| {
      assert s.active[0] in s.active[..i];
    }
  }

  /**
   The search in terms of the queue it found: the victim is the first unreferenced page, or the
   head if all are referenced; exactly the pages in front of the first unreferenced one lose
   their mapping; and the queue is rotated so that the victim heads it.
   */
  lemma RotateExact(s: Sys, k: nat)
    requires Known(s, s.active) && k < |s.active|
    requires forall i, j :: 0 <= i < j < |s.active| ==> s.items[s.active[i]].page != s.items[s.active[j]].page
    requires forall i :: 0 <= i < k ==> Referenced(s, s.active[i])
    requires Referenced(s, s.active[k]) ==> k == |s.active| - 1
    ensures var v := if Referenced(s, s.active[k]) then 0 else k;
      && Head(s) == s.active[v] && Rotate(s).active == s.active[v..] + s.active[..v]
      && forall i :: 0 <= i < |s.active| ==>
           (Referenced(Rotate(s), s.active[i]) <==> Referenced(s, s.active[i]) && i > k)
  {
    var n := ColdIndex(s, s.active);
    assert if Referenced(s, s.active[k]) then n == |s.active| else n == k by {
      assert k < n ==> Referenced(s, s.active[k]);
    }
    forall i | 0 <= i < |s.active|
      ensures s.items[s.active[i]].page in PagesOf(s, s.active[..n]) <==> i < n
    {
      if i < n {
        assert s.active[i] == s.active[..n][i];
      } else {
        assert forall j :: 0 <= j < n ==> s.active[..n][j] == s.active[j];
      }
    }
  }

  lemma RotateQueues(s: Sys)
    requires QueuesOk(s.items, s.active, s.swapping) && s.active != []
    ensures QueuesOk(s.items, Rotate(s).active, s.swapping)
    ensures forall id :: id in Rotate(s).active <==> id in s.active
  {
    var i := ColdIndex(s, s.active);
    RotateNoDup(s.active, if i == |s.active| then 0 else i);
  }

  lemma RotateDirty(s: Sys)
    requires Known(s, s.active) && DirtyOk(s)
    ensures DirtyOk(Rotate(s))
  {
    var s' := Rotate(s);
    assert forall id :: Arriving(s', id) <==> Arriving(s, id);
    assert forall id :: Leaving(s', id) <==> Leaving(s, id);
  }

  lemma RotateContents(s: Sys)
    requires Known(s, s.active) && CleanOk(s) && ArrivingOk(s)
    requires forall id :: id in Rotate(s).active <==> id in s.active
    ensures CleanOk(Rotate(s)) && ArrivingOk(Rotate(s))
  {
    var s' := Rotate(s);
    assert forall id :: Arriving(s', id) <==> Arriving(s, id);
  }

  /** The pages the search unmaps are active, so no page on its way out loses its mapping. */
  lemma RotateLeaving(s: Sys)
    requires QueuesOk(s.items, s.active, s.swapping) && TablesOk(s.procs, s.pt, s.items) && LeavingOk(s)
    ensures LeavingOk(Rotate(s))
  {
    var s' := Rotate(s);
    forall id | Leaving(s', id) && s'.items[id].page !in s'.hw
      ensures Leaving(s, id) && s.items[id].page !in s.hw
    {
      assert Live(s.items, id);
      forall a | a in s.active
        ensures s.items[a].page != s.items[id].page
      {
        assert Live(s.items, a);
      }
    }
  }

  lemma RotateInv(s: Sys)
    requires Inv(s) && s.active != []
    ensures Inv(Rotate(s))
  {
    hide TablesOk, FramesOk, SlotsOk, StoresOk, PutsOk, GetsOk, DirtyOk, CleanOk, LeavingOk, ArrivingOk, WaitersOk;
    RotateQueues(s);
    RotateDirty(s);
    RotateContents(s);
    RotateLeaving(s);
  }

  // -------------------------------------------------------------- GiveSlot

  predicate FreshSlot(s: Sys, x: Slot) {
    ValidSlot(x) && x !in s.used
  }

  lemma GiveSlotTables(s: Sys, x: Slot)
    requires Known(s, s.active) && s.active != [] && TablesOk(s.procs, s.pt, s.items)
    ensures TablesOk(s.procs, s.pt, GiveSlot(s, x).items)
  {
    SamePages(s.procs, s.pt, s.items, GiveSlot(s, x).items);
  }

  lemma GiveSlotSlots(s: Sys, x: Slot)
    requires Known(s, s.active) && s.active != [] && SlotsOk(s.used, s.pt, s.items)
    requires FreshSlot(s, x) && s.items[s.active[0]].slot.None?
    ensures SlotsOk(s.used + {x}, s.pt, GiveSlot(s, x).items)
  {
    var h := s.active[0];
    assert forall id, y :: OwnsSlot(GiveSlot(s, x).items, id, y) <==> OwnsSlot(s.items, id, y) || (id == h && y == x);
  }

  lemma GiveSlotFlights(s: Sys, x: Slot)
    requires QueuesOk(s.items, s.active, s.swapping) && s.active != []
    requires PutsOk(s.puts, s.gets, s.items, s.swapping) && GetsOk(s.puts, s.gets, s.items, s.swapping)
    ensures PutsOk(s.puts, s.gets, GiveSlot(s, x).items, s.swapping)
    ensures GetsOk(s.puts, s.gets, GiveSlot(s, x).items, s.swapping)
  {
    assert forall id :: id in s.swapping ==> GiveSlot(s, x).items[id] == s.items[id];
  }

  lemma GiveSlotWaiters(s: Sys, x: Slot)
    requires Known(s, s.active) && s.active != [] && WaitersOk(s.procs, s.blocked, s.items, s.gets)
    ensures WaitersOk(s.procs, s.blocked, GiveSlot(s, x).items, s.gets)
  {
    assert forall t, id :: Awaits(GiveSlot(s, x).items, s.gets, t, id) <==> Awaits(s.items, s.gets, t, id);
  }

  lemma GiveSlotContents(s: Sys, x: Slot)
    requires QueuesOk(s.items, s.active, s.swapping) && s.active != []
    requires s.items[s.active[0]].slot.None?
    requires DirtyOk(s) && CleanOk(s)
    ensures DirtyOk(GiveSlot(s, x)) && CleanOk(GiveSlot(s, x))
  {
    var s' := GiveSlot(s, x);
    assert forall id :: Arriving(s', id) <==> Arriving(s, id);
    assert forall id :: Leaving(s', id) <==> Leaving(s, id);
  }

  lemma GiveSlotTransfers(s: Sys, x: Slot)
    requires QueuesOk(s.items, s.active, s.swapping) && s.active != []
    requires GetsOk(s.puts, s.gets, s.items, s.swapping)
    requires LeavingOk(s) && ArrivingOk(s)
    ensures LeavingOk(GiveSlot(s, x)) && ArrivingOk(GiveSlot(s, x))
  {
    var s' := GiveSlot(s, x);
    assert forall id :: id in s.swapping ==> s'.items[id] == s.items[id];
    assert forall id :: Arriving(s', id) <==> Arriving(s, id);
    assert forall id :: Leaving(s', id) <==> Leaving(s, id);
  }

  lemma GiveSlotInv(s: Sys, x: Slot)
    requires Inv(s) && s.active != [] && FreshSlot(s, x)
    requires s.items[s.active[0]].slot.None?
    ensures Inv(GiveSlot(s, x))
  {
    hide TablesOk, FramesOk, MappingsOk, SlotsOk, StoresOk, PutsOk, GetsOk, DirtyOk, CleanOk, LeavingOk,
      ArrivingOk, WaitersOk;
    GiveSlotTables(s, x);
    GiveSlotSlots(s, x);
    GiveSlotFlights(s, x);
    GiveSlotWaiters(s, x);
    GiveSlotContents(s, x);
    GiveSlotTransfers(s, x);
  }

  // -------------------------------------------------------------- WriteOut

  ghost predicate CanWriteOut(s: Sys, t: Tid) {
    && HeadReady(s) && s.pt[s.items[s.active[0]].page].frame in s.mem
    && s.pt[s.items[s.active[0]].page].dirty
    && t in s.procs && t !in s.blocked
  }

  /** The head of the active queue is live and in no other place. */
  ghost predicate HeadActive(s: Sys) {
    && s.active != [] && s.active[0] !in s.swapping && s.active[0] !in s.active[1..]
    && Live(s.items, s.active[0])
    && s.items[s.active[0]].initiator.None?
  }

  lemma WriteOutQueues(s: Sys, t: Tid)
    requires QueuesOk(s.items, s.active, s.swapping) && CanWriteOut(s, t)
    ensures var s' := WriteOut(s, t); QueuesOk(s'.items, s'.active, s'.swapping)
    ensures HeadActive(s)
  {
    TailNoDup(s.active);
    AppendNoDup(s.swapping, s.active[0]);
  }

  lemma WriteOutSlots(s: Sys, t: Tid)
    requires SlotsOk(s.used, s.pt, s.items) && CanWriteOut(s, t)
    ensures SlotsOk(s.used, s.pt, WriteOut(s, t).items)
  {
    assert forall id, y :: OwnsSlot(WriteOut(s, t).items, id, y) <==> OwnsSlot(s.items, id, y);
  }

  lemma EightChunks(puts: map<Request, WriteOp>, id: Id)
    requires forall k: nat :: k < CHUNKS ==> Request(id, k) in puts
    ensures |Outstanding(puts, id)| == 8 && Outstanding(puts, id) != {}
  {
    assert Outstanding(puts, id) == {0, 1, 2, 3, 4, 5, 6, 7};
  }

  lemma SameOutstanding(puts: map<Request, WriteOp>, puts': map<Request, WriteOp>, id: Id)
    requires forall r: Request :: r.id != id ==> (r in puts <==> r in puts')
    ensures forall i :: i != id ==> Outstanding(puts', i) == Outstanding(puts, i)
  {
  }

  lemma WriteOutPuts(s: Sys, t: Tid)
    requires CanWriteOut(s, t) && HeadActive(s)
    requires PutsOk(s.puts, s.gets, s.items, s.swapping)
    ensures var s' := WriteOut(s, t); PutsOk(s'.puts, s'.gets, s'.items, s'.swapping)
  {
    hide Outstanding;
    var s' := WriteOut(s, t);
    var h := s.active[0];
    EightChunks(s'.puts, h);
    SameOutstanding(s.puts, s'.puts, h);
    assert forall id :: id in s.swapping && id in s.items ==> id != h && s'.items[id] == s.items[id];
  }

  lemma WriteOutGets(s: Sys, t: Tid)
    requires CanWriteOut(s, t) && HeadActive(s)
    requires GetsOk(s.puts, s.gets, s.items, s.swapping)
    ensures var s' := WriteOut(s, t); GetsOk(s'.puts, s'.gets, s'.items, s'.swapping)
  {
    var s' := WriteOut(s, t);
    assert forall id :: id in s.gets ==> id != s.active[0] && s'.items[id] == s.items[id];
  }

  lemma WriteOutContents(s: Sys, t: Tid)
    requires CanWriteOut(s, t) && HeadActive(s)
    requires DirtyOk(s) && CleanOk(s) && ArrivingOk(s)
    requires GetsOk(s.puts, s.gets, s.items, s.swapping)
    ensures var s' := WriteOut(s, t); DirtyOk(s') && CleanOk(s') && ArrivingOk(s')
  {
    hide Saved, Fetched;
    var s' := WriteOut(s, t);
    var h := s.active[0];
    assert forall id :: Arriving(s', id) <==> Arriving(s, id);
    assert forall id :: Leaving(s', id) <==> Leaving(s, id) || id == h;
  }

  /** Each chunk of the head's frame is in the request for it. */
  lemma HeadSent(s: Sys, t: Tid)
    requires CanWriteOut(s, t) && HeadActive(s)
    requires StoresOk(s.frames, s.mem, s.file) && SlotsOk(s.used, s.pt, s.items)
    ensures var s', h := WriteOut(s, t), s.active[0];
      Sent(s'.puts, s'.file, s'.mem, h, s'.items[h].slot, s'.pt[s'.items[h].page].frame)
  {
    assert OwnsSlot(s.items, s.active[0], s.items[s.active[0]].slot.value);
  }

  lemma WriteOutLeaving(s: Sys, t: Tid)
    requires CanWriteOut(s, t) && HeadActive(s)
    requires PutsOk(s.puts, s.gets, s.items, s.swapping) && LeavingOk(s)
    requires StoresOk(s.frames, s.mem, s.file) && SlotsOk(s.used, s.pt, s.items)
    ensures LeavingOk(WriteOut(s, t))
  {
    var s' := WriteOut(s, t);
    var h := s.active[0];
    forall id | Leaving(s', id) && InFrame(s.pt, s'.items[id].page) && s'.items[id].page !in s.hw
      ensures Sent(s'.puts, s'.file, s'.mem, id, s'.items[id].slot, s'.pt[s'.items[id].page].frame)
    {
      if id == h {
        HeadSent(s, t);
      } else {
        hide Sent;
        assert Leaving(s, id);
        SentElsewhere(s.puts, s'.puts, s.file, s.mem, id, s.items[id].slot, s.pt[s.items[id].page].frame);
      }
    }
  }

  lemma WriteOutWaiters(s: Sys, t: Tid)
    requires CanWriteOut(s, t) && HeadActive(s)
    requires GetsOk(s.puts, s.gets, s.items, s.swapping)
    requires WaitersOk(s.procs, s.blocked, s.items, s.gets)
    ensures WaitersOk(s.procs, s.blocked + {t}, WriteOut(s, t).items, s.gets)
  {
    var h := s.active[0];
    assert h !in s.gets;
    assert forall u, id :: Awaits(WriteOut(s, t).items, s.gets, u, id) <==>
      if id == h then u == t else Awaits(s.items, s.gets, u, id);
  }

  lemma WriteOutInv(s: Sys, t: Tid)
    requires Inv(s) && CanWriteOut(s, t)
    ensures Inv(WriteOut(s, t))
  {
    hide QueuesOk, TablesOk, FramesOk, MappingsOk, SlotsOk, StoresOk, PutsOk, GetsOk, DirtyOk, CleanOk, LeavingOk,
      ArrivingOk, WaitersOk;
    SamePages(s.procs, s.pt, s.items, WriteOut(s, t).items);
    WriteOutQueues(s, t);
    WriteOutSlots(s, t);
    WriteOutPuts(s, t);
    WriteOutGets(s, t);
    WriteOutContents(s, t);
    WriteOutLeaving(s, t);
    WriteOutWaiters(s, t);
  }
}
