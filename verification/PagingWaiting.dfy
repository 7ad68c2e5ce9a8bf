/**
 Threads whose page fault has not been answered. Each waits for one item in
 flight and gets one reply, from the callback of that item's last chunk; the one
 way to lose the reply is identified exactly.
 */
module PagingWaiting {
  import opened Seqs
  import opened PagingState
  import opened PagingOps
  import opened PagingEvict
  import opened PagingRetire
  import opened PagingFault
  import opened PagingPut
  import opened PagingMachine

  /** Thread `u` is blocked, or awaits an item, in `s'` exactly as in `s`. */
  ghost predicate SameFor(s: Sys, s': Sys, u: Tid) {
    && (u in s'.blocked <==> u in s.blocked)
    && forall i :: Awaits(s'.items, s'.gets, u, i) <==> Awaits(s.items, s.gets, u, i)
  }

  /** A blocked thread that no item in flight will ever wake. */
  ghost predicate Orphan(s: Sys, u: Tid) {
    u in s.blocked && forall i :: !Awaits(s.items, s.gets, u, i)
  }

  // ------------------------------------------------------------ page faults

  lemma RotateSame(s: Sys, u: Tid)
    requires Known(s, s.active)
    ensures SameFor(s, Rotate(s), u)
  {
    hide ColdIndex, PagesOf;
  }

  lemma GiveSlotSame(s: Sys, x: Slot, u: Tid)
    requires Known(s, s.active) && s.active != []
    ensures SameFor(s, GiveSlot(s, x), u)
  {
  }

  lemma VictimSame(s: Sys, u: Tid)
    requires Victim(s).Some?
    ensures SameFor(s, Victim(s).value, u)
  {
    hide FirstFree, Rotate, GiveSlot, SameFor;
    var r := Rotate(s);
    RotateSame(s, u);
    if r.items[Head(s)].slot.None? {
      GiveSlotSame(r, FirstFree(r.used, 0).value, u);
      SameTrans(s, r, Victim(s).value, u);
    }
  }

  lemma WriteOutSame(s: Sys, t: Tid, u: Tid)
    requires Inv(s) && CanWriteOut(s, t)
    ensures u != t ==> SameFor(s, WriteOut(s, t), u)
    ensures Awaits(WriteOut(s, t).items, WriteOut(s, t).gets, t, s.active[0])
  {
    hide TablesOk, FramesOk, MappingsOk, SlotsOk, StoresOk, PutsOk, DirtyOk, CleanOk, LeavingOk, ArrivingOk, WaitersOk;
    ActiveNotRead(s, s.active[0]);
  }

  lemma EvictSame(s: Sys, u: Tid)
    requires Inv(s) && CanEvict(s)
    ensures SameFor(s, EvictClean(s), u)
  {
    hide TablesOk, FramesOk, MappingsOk, SlotsOk, StoresOk, PutsOk, DirtyOk, CleanOk, LeavingOk, ArrivingOk, WaitersOk;
    ActiveNotRead(s, s.active[0]);
  }

  lemma SwapOutSame(s: Sys, t: Tid, u: Tid)
    requires Inv(s) && Runs(s, t) && !SwapOut(s, t).Halt?
    ensures var s1 := SwapOut(s, t).next;
      && (u != t || SwapOut(s, t).Complete? ==> SameFor(s, s1, u))
      && (SwapOut(s, t).Pending? ==> exists i :: Awaits(s1.items, s1.gets, t, i))
  {
    hide Inv, SameFor;
    VictimInv(s);
    VictimSame(s, u);
    var g := Victim(s).value;
    if SwapOut(s, t).Pending? {
      WriteOutSame(g, t, u);
      SameTrans(s, g, WriteOut(g, t), u);
    } else {
      EvictSame(g, u);
      SameTrans(s, g, EvictClean(g), u);
    }
  }

  lemma SameTrans(a: Sys, b: Sys, c: Sys, u: Tid)
    ensures SameFor(a, b, u) && SameFor(b, c, u) ==> SameFor(a, c, u)
  {
  }

  lemma IdleItemSame(items: map<Id, Item>, gets: map<Id, ReadOp>, id: Id, it: Item, u: Tid)
    requires id !in items && id !in gets && it.initiator.None?
    ensures forall i :: Awaits(items[id := it], gets, u, i) <==> Awaits(items, gets, u, i)
  {
  }

  lemma AllocNewSame(s: Sys, p: Page, w: bool, id: Id, u: Tid)
    requires s.free != [] && p !in s.pt && id !in s.items && id !in s.gets
    ensures SameFor(s, MapPage(AllocNew(s, p, id), p, w), u)
  {
    hide Awaits, MapPage, AllocNew;
    IdleItemSame(s.items, s.gets, id, Item(p, None, 0, None, false), u);
    AllocNewItems(s, p, w, id);
  }

  lemma AllocNewItems(s: Sys, p: Page, w: bool, id: Id)
    requires s.free != []
    ensures InFrame(AllocNew(s, p, id).pt, p)
    ensures var r := MapPage(AllocNew(s, p, id), p, w);
      && r.blocked == s.blocked && r.gets == s.gets
      && r.items == if p.vpn == IPC_VPN then s.items else s.items[id := Item(p, None, 0, None, false)]
  {
    hide AllocNew, MapPage;
    EnteredItems(s, p, id);
    MappedItems(AllocNew(s, p, id), p, w);
  }

  lemma EnteredItems(s: Sys, p: Page, id: Id)
    requires s.free != []
    ensures InFrame(AllocNew(s, p, id).pt, p)
    ensures AllocNew(s, p, id).blocked == s.blocked && AllocNew(s, p, id).gets == s.gets
    ensures AllocNew(s, p, id).items == if p.vpn == IPC_VPN then s.items
      else s.items[id := Item(p, None, 0, None, false)]
  {
    hide Zero, Top;
    if p.vpn == IPC_VPN {
      assert AllocNew(s, p, id).items == s.items;
    }
  }

  lemma MappedItems(s: Sys, p: Page, w: bool)
    requires InFrame(s.pt, p)
    ensures var r := MapPage(s, p, w); r.blocked == s.blocked && r.gets == s.gets && r.items == s.items
  {
  }

  lemma SwapInSame(s: Sys, p: Page, id: Id, u: Tid)
    requires s.free != [] && p in s.pt && s.pt[p].Swapped? && id !in s.items && id !in s.gets
    ensures u != p.tid ==> SameFor(s, BeginSwapIn(s, p, id), u)
    ensures var s' := BeginSwapIn(s, p, id); Awaits(s'.items, s'.gets, p.tid, id)
  {
  }

  lemma UseFrameSame(s: Sys, p: Page, w: bool, id: Id, u: Tid)
    requires UseFrame(s, p, w, id).Some? && id !in s.items && id !in s.gets
    ensures var s' := UseFrame(s, p, w, id).value;
      && (u != p.tid || p !in s.pt ==> SameFor(s, s', u))
      && (p in s.pt ==> Awaits(s'.items, s'.gets, p.tid, id))
  {
    hide AllocNew, BeginSwapIn, MapPage, SameFor;
    if p !in s.pt {
      AllocNewSame(s, p, w, id, u);
    } else {
      SwapInSame(s, p, id, u);
    }
  }

  lemma NotRead(s: Sys, id: Id)
    requires Inv(s) && id !in s.items
    ensures id !in s.gets
  {
    hide QueuesOk, TablesOk, FramesOk, MappingsOk, SlotsOk, StoresOk, PutsOk, DirtyOk, CleanOk, LeavingOk,
      ArrivingOk, WaitersOk;
  }

  /** A fault changes nothing for other threads; its own thread goes on or awaits an item. */
  lemma TouchSame(s: Sys, p: Page, w: bool, id: Id, u: Tid, m: Flat)
    requires Inv(s) && Shows(s, m) && Enabled(s, Touch(p, w, id)) && Fault(s, p, w, id).Some?
    ensures var s' := Fault(s, p, w, id).value;
      if u == p.tid then u in s'.blocked ==> exists i :: Awaits(s'.items, s'.gets, u, i)
      else SameFor(s, s', u)
  {
    hide Inv, Shows, SwapOut, UseFrame;
    if !InFrame(s.pt, p) {
      if s.free != [] {
        NotRead(s, id);
        UseFrameSame(s, p, w, id, u);
      } else {
        SwapOutSame(s, p.tid, u);
        if SwapOut(s, p.tid).Complete? {
          var s1 := SwapOut(s, p.tid).next;
          SwapOutInv(s, p.tid, m);
          SwapOutFrame(s, p.tid, p, id);
          NotRead(s1, id);
          UseFrameSame(s1, p, w, id, u);
          SameTrans(s, s1, UseFrame(s1, p, w, id).value, u);
        }
      }
    }
  }

  // ---------------------------------------------------------------- callbacks

  /** The acknowledgement that ends a swap-out which `u` started, if the page was freed and not touched again. */
  predicate Strands(s: Sys, step: Step, u: Tid) {
    && step.WriteAcked? && step.req.id in s.items
    && var it := s.items[step.req.id];
       it.initiator == Some(u) && it.toSwap == BATCH_SIZE && it.deleted && it.page !in s.hw
  }

  /** The callback of the last chunk of item `id`. */
  predicate LastChunk(s: Sys, step: Step, id: Id) {
    && id in s.items
    && if step.WriteAcked? then step.req.id == id && s.items[id].toSwap == BATCH_SIZE
       else step.ReadAnswered? && step.id == id && s.items[id].toSwap == PAGESIZE - BATCH_SIZE
  }

  /** The item of a finished swap-out is gone, or names nobody any more. */
  ghost predicate Finished(s: Sys, s': Sys, id: Id) {
    && id in s.items && id !in s.gets && s'.gets == s.gets
    && (forall i :: i != id ==> (i in s'.items <==> i in s.items) && (i in s.items ==> s'.items[i] == s.items[i]))
    && (id in s'.items ==> s'.items[id].initiator.None?)
  }

  lemma FinishedSame(s: Sys, s': Sys, id: Id, u: Tid)
    requires Finished(s, s', id) && WaitersOk(s.procs, s.blocked, s.items, s.gets)
    ensures if s.items[id].initiator == Some(u) then u in s.blocked && forall i :: !Awaits(s'.items, s'.gets, u, i)
            else forall i :: Awaits(s'.items, s'.gets, u, i) <==> Awaits(s.items, s.gets, u, i)
  {
    if s.items[id].initiator == Some(u) {
      assert Awaits(s.items, s.gets, u, id);
      assert forall i :: Awaits(s'.items, s'.gets, u, i) ==> Awaits(s.items, s.gets, u, i);
    }
  }

  lemma FinishIsFinished(s: Sys, id: Id)
    requires id in s.items && id !in s.gets
    requires !s.items[id].deleted ==> EntryFound(s, id)
    ensures Finished(s, FinishPut(s, id), id)
    ensures FinishPut(s, id).blocked ==
      if s.items[id].deleted && s.items[id].page !in s.hw then s.blocked else Wake(s.blocked, s.items[id].initiator)
  {
    if s.items[id].deleted {
      assert Finished(s, DropSwapping(s, id), id);
    } else if Referenced(s, id) {
      assert Finished(s, Abandon(s, id), id);
    } else {
      assert Finished(s, Retire(s, id), id);
    }
  }

  lemma FinishSame(s: Sys, id: Id, u: Tid)
    requires WaitersOk(s.procs, s.blocked, s.items, s.gets) && id in s.items && id !in s.gets
    requires !s.items[id].deleted ==> EntryFound(s, id)
    ensures var s' := FinishPut(s, id);
      if s.items[id].initiator == Some(u) then
        && (u in s'.blocked <==> s.items[id].deleted && s.items[id].page !in s.hw)
        && forall i :: !Awaits(s'.items, s'.gets, u, i)
      else SameFor(s, s', u)
  {
    FinishIsFinished(s, id);
    hide FinishPut, EntryFound, WaitersOk, Finished;
    FinishedSame(s, FinishPut(s, id), id, u);
  }

  lemma CountSame(s: Sys, r: Request, u: Tid)
    requires r.id in s.items
    ensures SameFor(s, CountAck(s, r), u)
  {
  }

  lemma PutAckSame(s: Sys, r: Request, u: Tid)
    requires Inv(s) && r in s.puts && s.puts[r].done && PutAck(s, r).Some?
    ensures var s' := PutAck(s, r).value; var step := WriteAcked(r);
      if Awaits(s.items, s.gets, u, r.id) && LastChunk(s, step, r.id) then
        (u in s'.blocked <==> Strands(s, step, u)) && forall i :: !Awaits(s'.items, s'.gets, u, i)
      else SameFor(s, s', u)
  {
    hide QueuesOk, TablesOk, FramesOk, MappingsOk, SlotsOk, StoresOk, PutsOk, GetsOk, DirtyOk, CleanOk, LeavingOk,
      ArrivingOk, WaitersOk, PutsDone, FinishPut, SameFor;
    AckKeeps(s, r);
    CountSame(s, r, u);
    var c := CountAck(s, r);
    if c.items[r.id].toSwap == 0 {
      FinishSame(c, r.id, u);
      SameTrans(s, c, FinishPut(c, r.id), u);
    }
  }

  lemma GetAckSame(s: Sys, id: Id, u: Tid)
    requires Inv(s) && id in s.gets && s.gets[id].reply.Some?
    requires GetAck(s, id, s.gets[id].reply.value).Some?
    ensures var s' := GetAck(s, id, s.gets[id].reply.value).value; var step := ReadAnswered(id);
      if Awaits(s.items, s.gets, u, id) && LastChunk(s, step, id) then
        u !in s'.blocked && forall i :: !Awaits(s'.items, s'.gets, u, i)
      else SameFor(s, s', u)
  {
    hide Inv, GetAck, GetsOk, WaitersOk;
    var s' := GetAck(s, id, s.gets[id].reply.value).value;
    GetsHold(s);
    if Awaits(s.items, s.gets, u, id) && LastChunk(s, ReadAnswered(id), id) {
      GetAckAnswers(s, id, u);
    } else {
      GetAckElse(s, id, u);
    }
  }

  lemma GetsHold(s: Sys)
    requires Inv(s)
    ensures GetsOk(s.puts, s.gets, s.items, s.swapping) && WaitersOk(s.procs, s.blocked, s.items, s.gets)
  {
    hide QueuesOk, TablesOk, FramesOk, MappingsOk, SlotsOk, StoresOk, PutsOk, GetsOk, DirtyOk, CleanOk, LeavingOk,
      ArrivingOk, WaitersOk;
  }

  lemma GetAckAnswers(s: Sys, id: Id, u: Tid)
    requires GetsOk(s.puts, s.gets, s.items, s.swapping) && WaitersOk(s.procs, s.blocked, s.items, s.gets)
    requires id in s.gets && s.gets[id].reply.Some?
    requires GetAck(s, id, s.gets[id].reply.value).Some?
    requires Awaits(s.items, s.gets, u, id) && LastChunk(s, ReadAnswered(id), id)
    ensures var s' := GetAck(s, id, s.gets[id].reply.value).value;
      u !in s'.blocked && forall i :: !Awaits(s'.items, s'.gets, u, i)
  {
    hide LoadChunk, EntryFound;
    var s' := GetAck(s, id, s.gets[id].reply.value).value;
    assert OwnsSlot(s.items, id, s.gets[id].slot);
    forall i
      ensures !Awaits(s'.items, s'.gets, u, i)
    {
      assert Awaits(s'.items, s'.gets, u, i) ==> Awaits(s.items, s.gets, u, i);
    }
  }

  /** What becomes of items, reads in flight and blocked threads. */
  lemma GetAckParts(s: Sys, id: Id)
    requires id in s.items && id in s.gets && s.gets[id].reply.Some?
    requires GetAck(s, id, s.gets[id].reply.value).Some?
    ensures var s', it := GetAck(s, id, s.gets[id].reply.value).value, s.items[id];
      if it.deleted then s'.items == s.items - {id} && s'.gets == s.gets - {id} && s'.blocked == s.blocked
      else
        && s'.items == s.items[id := it.(toSwap := it.toSwap + BATCH_SIZE)]
        && if it.toSwap + BATCH_SIZE == PAGESIZE then
             s'.gets == s.gets - {id} && s'.blocked == s.blocked - {it.page.tid}
           else
             s'.gets.Keys == s.gets.Keys && s'.blocked == s.blocked
  {
    hide LoadChunk, EntryFound;
  }

  lemma GetAckElse(s: Sys, id: Id, u: Tid)
    requires GetsOk(s.puts, s.gets, s.items, s.swapping) && id in s.gets && s.gets[id].reply.Some?
    requires GetAck(s, id, s.gets[id].reply.value).Some?
    requires !(Awaits(s.items, s.gets, u, id) && LastChunk(s, ReadAnswered(id), id))
    ensures SameFor(s, GetAck(s, id, s.gets[id].reply.value).value, u)
  {
    hide GetAck;
    assert OwnsSlot(s.items, id, s.gets[id].slot);
    GetAckParts(s, id);
  }

  // -------------------------------------------------- deletion and start

  lemma FreeRangeSame(s: Sys, t: Tid, lo: nat, hi: nat, all: bool, u: Tid)
    requires QueuesOk(s.items, s.active, s.swapping) && GetsOk(s.puts, s.gets, s.items, s.swapping)
    requires u != t
    ensures forall i :: Awaits(FreeRange(s, t, lo, hi, all).items, s.gets, u, i) <==> Awaits(s.items, s.gets, u, i)
  {
  }

  lemma KillSame(s: Sys, t: Tid, u: Tid)
    requires Inv(s) && u != t
    ensures SameFor(s, Delete(s, t), u) && SameFor(s, Start(s, t), u)
  {
    hide TablesOk, FramesOk, MappingsOk, SlotsOk, StoresOk, PutsOk, DirtyOk, CleanOk, LeavingOk, ArrivingOk,
      WaitersOk, FreeFrames;
    var v := UnmapRange(s, t, 0, STACK_TOP_VPN);
    FreeRangeSame(v, t, 0, ALL_PAGES, true, u);
    FreeRangeSame(v, t, HEAP_START_VPN, HEAP_END_VPN, false, u);
    hide QueuesOk, GetsOk, Awaits;
  }

  // ------------------------------------------------------------- theorems

  ghost predicate Possible(s: Sys, step: Step, m: Flat) {
    Inv(s) && Shows(s, m) && Enabled(s, step) && Safe(s, step) && Apply(s, step).Some?
  }

  /** Steps other than faults and callbacks. */
  lemma QuietSame(s: Sys, step: Step, u: Tid)
    requires Enabled(s, step) && Apply(s, step).Some?
    requires !step.Touch? && !step.WriteAcked? && !step.ReadAnswered? && !step.Kill? && !step.Exec?
    ensures SameFor(s, Apply(s, step).value, u)
  {
  }

  /**
   When a thread stops being blocked, it was killed or the last chunk of the one item it
   awaits arrived; and when that chunk arrives the thread is woken, unless the step strands it.
   */
  lemma ReplyExact(s: Sys, step: Step, u: Tid, m: Flat)
    requires Possible(s, step, m) && u in s.blocked
    ensures var s' := Apply(s, step).value;
      u !in s'.blocked <==>
        step == Kill(u) ||
        (!Strands(s, step, u) && exists id :: Awaits(s.items, s.gets, u, id) && LastChunk(s, step, id))
  {
    StepSame(s, step, u, m);
  }

  /** What a step means for a thread that was blocked before it. */
  lemma StepSame(s: Sys, step: Step, u: Tid, m: Flat)
    requires Possible(s, step, m) && u in s.blocked
    ensures var s' := Apply(s, step).value;
      if step == Kill(u) then u !in s'.blocked
      else if exists id :: Awaits(s.items, s.gets, u, id) && LastChunk(s, step, id) then
        (u in s'.blocked <==> Strands(s, step, u)) && forall i :: !Awaits(s'.items, s'.gets, u, i)
      else SameFor(s, s', u)
  {
    hide Inv, Shows, Fault, PutAck, GetAck, Delete, Start, SameFor, Safe;
    match step
    case Touch(p, w, id) => TouchSame(s, p, w, id, u, m);
    case WriteAcked(r) => PutAckSame(s, r, u);
    case ReadAnswered(id) => GetAckSame(s, id, u);
    case Kill(t) => if t != u { KillSame(s, t, u); } else { KilledWakes(s, t); }
    case Exec(t) => KillSame(s, t, u);
    case _ => QuietSame(s, step, u);
  }

  lemma KilledWakes(s: Sys, t: Tid)
    ensures t !in Delete(s, t).blocked
  {
  }

  lemma StrandsBlocked(s: Sys, step: Step, u: Tid)
    requires Inv(s) && Enabled(s, step) && Strands(s, step, u)
    ensures u in s.blocked && Awaits(s.items, s.gets, u, step.req.id) && LastChunk(s, step, step.req.id)
  {
    hide NoDup, Outstanding;
    AckKeeps(s, step.req);
    hide QueuesOk, TablesOk, FramesOk, MappingsOk, SlotsOk, StoresOk, PutsOk, GetsOk, DirtyOk, CleanOk,
      LeavingOk, ArrivingOk;
    assert Awaits(s.items, s.gets, u, step.req.id);
  }

  /** A step blocks a running thread only by giving it an item to await. */
  lemma RunningStep(s: Sys, step: Step, u: Tid, m: Flat)
    requires Possible(s, step, m) && u !in s.blocked
    ensures var s' := Apply(s, step).value; u in s'.blocked ==> exists i :: Awaits(s'.items, s'.gets, u, i)
  {
    hide Inv, Shows, Fault, PutAck, GetAck, Delete, Start, Safe;
    match step
    case Touch(p, w, id) => TouchSame(s, p, w, id, u, m);
    case WriteAcked(r) => PutAckSame(s, r, u); StrandsOnlyBlocked(s, step, u);
    case ReadAnswered(id) => GetAckSame(s, id, u);
    case Kill(t) => if t != u { KillSame(s, t, u); } else { KilledWakes(s, t); }
    case Exec(t) => if t != u { KillSame(s, t, u); } else { ExecKeepsBlocked(s, t); }
    case _ => QuietSame(s, step, u);
  }

  lemma ExecKeepsBlocked(s: Sys, t: Tid)
    ensures Start(s, t).blocked == s.blocked
  {
  }

  lemma StrandsOnlyBlocked(s: Sys, step: Step, u: Tid)
    requires Inv(s) && Enabled(s, step) && u !in s.blocked
    ensures !Strands(s, step, u)
  {
    if Strands(s, step, u) {
      StrandsBlocked(s, step, u);
    }
  }

  /**
   A blocked thread loses its waker in exactly one way: the last acknowledgement of the
   swap-out it started comes in after the page was freed and while it is not mapped again.
   */
  lemma OrphanExact(s: Sys, step: Step, u: Tid, m: Flat)
    requires Possible(s, step, m)
    ensures Orphan(Apply(s, step).value, u) <==> (Orphan(s, u) && step != Kill(u)) || Strands(s, step, u)
  {
    hide Inv, Shows, Safe, Apply, Enabled, LastChunk;
    assert Inv(s) && Enabled(s, step) by { PossibleParts(s, step, m); }
    if Strands(s, step, u) {
      StrandsBlocked(s, step, u);
      assert step != Kill(u);
    }
    hide Strands;
    if u in s.blocked {
      StepSame(s, step, u, m);
    } else {
      RunningStep(s, step, u, m);
    }
  }

  lemma PossibleParts(s: Sys, step: Step, m: Flat)
    requires Possible(s, step, m)
    ensures Inv(s) && Enabled(s, step)
  {
  }

  ghost predicate StrandsNobody(s: Sys, step: Step) {
    forall u :: !Strands(s, step, u)
  }

  /** No step of the run strands a thread. */
  ghost predicate Faithful(s: Sys, run: seq<Step>) {
    run == [] ||
    (var prev := After(s, run[..|run| - 1]);
     Faithful(s, run[..|run| - 1]) && (prev.Some? ==> StrandsNobody(prev.value, run[|run| - 1])))
  }

  /** In such a run every blocked thread awaits exactly one item in flight. */
  lemma {:induction false} BlockedAreAwaited(s: Sys, run: seq<Step>, u: Tid)
    requires Init(s) && After(s, run).Some? && Faithful(s, run)
    ensures var s' := After(s, run).value;
      u in s'.blocked ==>
        exists id :: Awaits(s'.items, s'.gets, u, id) && forall j :: Awaits(s'.items, s'.gets, u, j) ==> j == id
  {
    RunRefines(s, run);
    hide Inv, Shows, Apply, Enabled, Safe, Strands;
    if run != [] {
      var prefix := run[..|run| - 1];
      BlockedAreAwaited(s, prefix, u);
      RunRefines(s, prefix);
      OrphanExact(After(s, prefix).value, run[|run| - 1], u, FlatAfter(prefix));
    }
  }

  /** A stranded thread stays blocked for as long as it is not killed. */
  lemma {:induction false} StrandedForever(s: Sys, run: seq<Step>, more: seq<Step>, u: Tid)
    requires Init(s) && After(s, run).Some? && Orphan(After(s, run).value, u)
    requires After(s, run + more).Some? && Kill(u) !in more
    ensures Orphan(After(s, run + more).value, u)
  {
    hide Inv, Shows, Apply, Enabled, Safe, Orphan, Strands;
    if more == [] {
      assert run + more == run;
    } else {
      var less, step := more[..|more| - 1], more[|more| - 1];
      assert (run + more)[..|run + more| - 1] == run + less;
      assert (run + more)[|run + more| - 1] == step;
      StrandedForever(s, run, less, u);
      RunRefines(s, run + less);
      OrphanExact(After(s, run + less).value, step, u, FlatAfter(run + less));
    }
  }
}
