/**
 Accounts kept over whole runs: which slots of the swap file are in use without an
 owner, and the order of the queue that the search for a victim goes through.
 */
module PagingLedger {
  import opened Seqs
  import opened PagingState
  import opened PagingOps
  import opened PagingFault
  import opened PagingMachine
  import opened PagingAnswer
  import opened PagingRelease

  // ------------------------------------------------------- slots that are lost

  /** Slot `x` is that of a swapped page or of an item. */
  ghost predicate Owned(s: Sys, x: Slot) {
    (exists p :: SwappedTo(s.pt, p, x)) || (exists id :: OwnsSlot(s.items, id, x))
  }

  /** Slot `x` is in use and nobody will ever give it back. */
  ghost predicate Lost(s: Sys, x: Slot) {
    x in s.used && !Owned(s, x)
  }

  /** The last callback for a page that was deleted in flight: its item goes, and slot `x` with it. */
  predicate LosesSlot(s: Sys, step: Step, x: Slot) {
    || (step.WriteAcked? && OwnsSlot(s.items, step.req.id, x) && s.items[step.req.id].deleted
        && s.items[step.req.id].toSwap == BATCH_SIZE)
    || (step.ReadAnswered? && OwnsSlot(s.items, step.id, x) && s.items[step.id].deleted)
  }

  lemma SameOwners(s: Sys, r: Sys, x: Slot)
    requires forall p :: SwappedTo(r.pt, p, x) <==> SwappedTo(s.pt, p, x)
    requires forall id :: OwnsSlot(r.items, id, x) <==> OwnsSlot(s.items, id, x)
    requires x in r.used <==> x in s.used
    ensures Lost(r, x) <==> Lost(s, x)
  {
    hide SwappedTo, OwnsSlot;
  }

  lemma VictimLost(s: Sys, x: Slot)
    requires Inv(s) && Victim(s).Some?
    ensures Lost(Victim(s).value, x) <==> Lost(s, x)
  {
    hide QueuesOk, TablesOk, FramesOk, MappingsOk, StoresOk, PutsOk, GetsOk, DirtyOk, CleanOk, LeavingOk, ArrivingOk,
      WaitersOk, ColdIndex, PagesOf;
    var g, r := Victim(s).value, Rotate(s);
    if r.items[Head(s)].slot.Some? {
      SameOwners(s, g, x);
    } else {
      var y := FirstFree(r.used, 0).value;
      if x == y {
        assert OwnsSlot(g.items, Head(s), y);
      } else {
        assert forall id :: OwnsSlot(g.items, id, x) <==> OwnsSlot(s.items, id, x);
        SameOwners(s, g, x);
      }
    }
  }

  lemma WriteOutLost(s: Sys, t: Tid, x: Slot)
    requires HeadReady(s) && s.pt[s.items[s.active[0]].page].frame in s.mem
    ensures Lost(WriteOut(s, t), x) <==> Lost(s, x)
  {
    var r := WriteOut(s, t);
    assert forall id :: OwnsSlot(r.items, id, x) <==> OwnsSlot(s.items, id, x);
    hide OwnsSlot, SwappedTo;
    SameOwners(s, r, x);
  }

  lemma EvictLost(s: Sys, x: Slot)
    requires HeadReady(s)
    ensures Lost(EvictClean(s), x) <==> Lost(s, x)
  {
    var r, h := EvictClean(s), s.active[0];
    HandedOver(s, r, h, x);
  }

  /** An item goes and its slot becomes that of its page. */
  lemma HandedOver(s: Sys, r: Sys, h: Id, x: Slot)
    requires h in s.items && s.items[h].slot.Some? && InFrame(s.pt, s.items[h].page)
    requires r.used == s.used && r.items == s.items - {h}
    requires r.pt == s.pt[s.items[h].page := Swapped(s.items[h].slot.value)]
    ensures Lost(r, x) <==> Lost(s, x)
  {
    var p, y := s.items[h].page, s.items[h].slot.value;
    assert SwappedTo(r.pt, p, y) && OwnsSlot(s.items, h, y);
    if x != y {
      assert forall q :: SwappedTo(r.pt, q, x) <==> SwappedTo(s.pt, q, x);
      assert forall id :: OwnsSlot(r.items, id, x) <==> OwnsSlot(s.items, id, x);
      SameOwners(s, r, x);
    }
  }

  lemma AllocNewLost(s: Sys, p: Page, id: Id, x: Slot)
    requires s.free != [] && p !in s.pt && id !in s.items
    ensures Lost(AllocNew(s, p, id), x) <==> Lost(s, x)
  {
    hide Zero, Top;
    var r := AllocNew(s, p, id);
    if p.vpn == IPC_VPN {
      assert r.items == s.items;
    }
    assert forall q :: SwappedTo(r.pt, q, x) <==> SwappedTo(s.pt, q, x);
    assert forall i :: OwnsSlot(r.items, i, x) <==> OwnsSlot(s.items, i, x);
    SameOwners(s, r, x);
  }

  lemma MapLost(s: Sys, p: Page, write: bool, x: Slot)
    requires InFrame(s.pt, p)
    ensures Lost(MapPage(s, p, write), x) <==> Lost(s, x)
  {
    var r := MapPage(s, p, write);
    assert forall q :: SwappedTo(r.pt, q, x) <==> SwappedTo(s.pt, q, x);
    SameOwners(s, r, x);
  }

  lemma SwapInLost(s: Sys, p: Page, id: Id, x: Slot)
    requires s.free != [] && p in s.pt && s.pt[p].Swapped? && id !in s.items
    ensures Lost(BeginSwapIn(s, p, id), x) <==> Lost(s, x)
  {
    hide Zero, Top;
    var r, y := BeginSwapIn(s, p, id), s.pt[p].slot;
    assert SwappedTo(s.pt, p, y) && OwnsSlot(r.items, id, y);
    if x != y {
      assert forall q :: SwappedTo(r.pt, q, x) <==> SwappedTo(s.pt, q, x);
      assert forall i :: OwnsSlot(r.items, i, x) <==> OwnsSlot(s.items, i, x);
      SameOwners(s, r, x);
    }
  }

  lemma UseFrameLost(s: Sys, p: Page, write: bool, id: Id, x: Slot)
    requires UseFrame(s, p, write, id).Some? && id !in s.items
    ensures Lost(UseFrame(s, p, write, id).value, x) <==> Lost(s, x)
  {
    hide AllocNew, BeginSwapIn, MapPage, Lost;
    if p in s.pt {
      SwapInLost(s, p, id, x);
    } else {
      NewPageEntered(s, p, id);
      AllocNewLost(s, p, id, x);
      MapLost(AllocNew(s, p, id), p, write, x);
    }
  }

  lemma FaultLost(s: Sys, p: Page, write: bool, id: Id, x: Slot)
    requires Inv(s) && Fault(s, p, write, id).Some? && id !in s.items
    ensures Lost(Fault(s, p, write, id).value, x) <==> Lost(s, x)
  {
    hide Inv, MapPage, Victim, WriteOut, EvictClean, UseFrame, Lost;
    if InFrame(s.pt, p) {
      MapLost(s, p, write, x);
    } else if s.free != [] {
      UseFrameLost(s, p, write, id, x);
    } else {
      var g := Victim(s).value;
      VictimInv(s);
      VictimLost(s, x);
      if SwapOut(s, p.tid).Pending? {
        WriteOutLost(g, p.tid, x);
      } else {
        SwapOutFrame(s, p.tid, p, id);
        EvictLost(g, x);
        UseFrameLost(EvictClean(g), p, write, id, x);
      }
    }
  }

  lemma CountLost(s: Sys, r: Request, x: Slot)
    requires r.id in s.items
    ensures Lost(CountAck(s, r), x) <==> Lost(s, x)
  {
    var c := CountAck(s, r);
    assert forall id :: OwnsSlot(c.items, id, x) <==> OwnsSlot(s.items, id, x);
    SameOwners(s, c, x);
  }

  /** An item goes that alone owned its slot. */
  lemma ItemDropped(s: Sys, r: Sys, id: Id, x: Slot)
    requires SlotsOk(s.used, s.pt, s.items) && id in s.items
    requires r.used == s.used && r.pt == s.pt && r.items == s.items - {id}
    ensures Lost(r, x) <==> Lost(s, x) || OwnsSlot(s.items, id, x)
  {
    if OwnsSlot(s.items, id, x) {
      assert forall p :: !SwappedTo(s.pt, p, x);
      assert forall i :: OwnsSlot(s.items, i, x) ==> i == id;
      forall i
        ensures !OwnsSlot(r.items, i, x)
      {
        assert OwnsSlot(r.items, i, x) ==> OwnsSlot(s.items, i, x) && i != id;
      }
    } else {
      assert forall i :: OwnsSlot(r.items, i, x) <==> OwnsSlot(s.items, i, x);
      SameOwners(s, r, x);
    }
  }

  lemma FinishLost(s: Sys, id: Id, x: Slot)
    requires SlotsOk(s.used, s.pt, s.items) && id in s.items && (!s.items[id].deleted ==> EntryFound(s, id))
    ensures Lost(FinishPut(s, id), x) <==> Lost(s, x) || (s.items[id].deleted && OwnsSlot(s.items, id, x))
  {
    hide SlotsOk, Without1, Lost, OwnsSlot;
    var r := FinishPut(s, id);
    if s.items[id].deleted {
      assert r.used == s.used && r.pt == s.pt && r.items == s.items - {id};
      ItemDropped(s, r, id, x);
    } else if Referenced(s, id) {
      assert r.items == s.items[id := s.items[id].(initiator := None)] && r.pt == s.pt && r.used == s.used;
      NamelessLost(s, r, id, x);
    } else {
      HandedOver(s, r, id, x);
    }
  }

  lemma NamelessLost(s: Sys, r: Sys, id: Id, x: Slot)
    requires id in s.items && r.items == s.items[id := s.items[id].(initiator := None)] && r.pt == s.pt &&
      r.used == s.used
    ensures Lost(r, x) <==> Lost(s, x)
  {
    assert forall i :: OwnsSlot(r.items, i, x) <==> OwnsSlot(s.items, i, x);
    SameOwners(s, r, x);
  }

  lemma CountedSlots(s: Sys, r: Request)
    requires SlotsOk(s.used, s.pt, s.items) && r.id in s.items
    ensures SlotsOk(s.used, s.pt, CountAck(s, r).items)
  {
    var c := CountAck(s, r);
    assert forall id, x :: OwnsSlot(c.items, id, x) <==> OwnsSlot(s.items, id, x);
    hide OwnsSlot, SwappedTo;
  }

  lemma PutLost(s: Sys, r: Request, x: Slot)
    requires SlotsOk(s.used, s.pt, s.items) && PutAck(s, r).Some?
    ensures Lost(PutAck(s, r).value, x) <==> Lost(s, x) || LosesSlot(s, WriteAcked(r), x)
  {
    hide SlotsOk, Lost, FinishPut;
    var c := CountAck(s, r);
    CountLost(s, r, x);
    CountedSlots(s, r);
    if c.items[r.id].toSwap == 0 {
      FinishLost(c, r.id, x);
    }
  }

  lemma GetLost(s: Sys, id: Id, data: Chunk, x: Slot)
    requires SlotsOk(s.used, s.pt, s.items) && GetAck(s, id, data).Some?
    ensures Lost(GetAck(s, id, data).value, x) <==> Lost(s, x) || LosesSlot(s, ReadAnswered(id), x)
  {
    hide SlotsOk, Lost, LoadChunk, EntryFound, Without1;
    var r := GetAck(s, id, data).value;
    if s.items[id].deleted {
      ItemDropped(s, r, id, x);
    } else {
      assert r.items == s.items[id := s.items[id].(toSwap := r.items[id].toSwap)] && r.pt == s.pt && r.used == s.used;
      MovedLost(s, r, id, x);
    }
  }

  lemma MovedLost(s: Sys, r: Sys, id: Id, x: Slot)
    requires id in s.items && id in r.items && r.items == s.items[id := s.items[id].(toSwap := r.items[id].toSwap)]
    requires r.pt == s.pt && r.used == s.used
    ensures Lost(r, x) <==> Lost(s, x)
  {
    assert forall i :: OwnsSlot(r.items, i, x) <==> OwnsSlot(s.items, i, x);
    SameOwners(s, r, x);
  }

  /** Whatever is released with a range had no other owner. */
  lemma ReleasedLost(s: Sys, r: Sys, t: Tid, lo: nat, hi: nat, x: Slot)
    requires Released(s, r, t, lo, hi) && SlotsOk(s.used, s.pt, s.items)
    requires forall id :: id in r.items ==> id in s.items && r.items[id].slot == s.items[id].slot
    ensures Lost(r, x) <==> Lost(s, x)
  {
    hide FrameGoes, KeptBut;
    assert x in r.used <==> x in s.used && !SlotGoes(s, t, lo, hi, x);
    assert forall p :: SwappedTo(r.pt, p, x) <==> SwappedTo(s.pt, p, x) && !Within(p, t, lo, hi);
    assert forall id :: OwnsSlot(r.items, id, x) <==>
      OwnsSlot(s.items, id, x) && (id in s.active ==> !Within(s.items[id].page, t, lo, hi));
    hide SwappedTo, OwnsSlot, Released, Within, SlotsOk;
  }

  lemma RangeKeepsSlots(s: Sys, t: Tid)
    requires Inv(s)
    ensures forall id :: id in Delete(s, t).items ==> id in s.items && Delete(s, t).items[id].slot == s.items[id].slot
    ensures forall id :: id in Start(s, t).items ==> id in s.items && Start(s, t).items[id].slot == s.items[id].slot
  {
    hide Inv, FreeFrames, Cleared, SlotsWithin, Without;
  }

  lemma SlotsHold(s: Sys)
    requires Inv(s)
    ensures SlotsOk(s.used, s.pt, s.items)
  {
    hide QueuesOk, TablesOk, FramesOk, MappingsOk, SlotsOk, StoresOk, PutsOk, GetsOk, DirtyOk, CleanOk, LeavingOk,
      ArrivingOk, WaitersOk;
  }

  /** A slot is lost in a step exactly if the step is the last callback for a page deleted in flight. */
  lemma StepLost(s: Sys, step: Step, x: Slot)
    requires Inv(s) && Enabled(s, step) && Apply(s, step).Some?
    ensures Lost(Apply(s, step).value, x) <==> Lost(s, x) || LosesSlot(s, step, x)
  {
    hide Inv, Lost, Fault, PutAck, GetAck, Delete, Start, SlotsOk, Released;
    SlotsHold(s);
    match step
    case Touch(p, w, id) => FaultLost(s, p, w, id, x);
    case WriteAcked(r) => PutLost(s, r, x);
    case ReadAnswered(id) => GetLost(s, id, s.gets[id].reply.value, x);
    case Kill(t) =>
      DeleteReleases(s, t);
      RangeKeepsSlots(s, t);
      ReleasedLost(s, Delete(s, t), t, 0, ALL_PAGES, x);
    case Exec(t) =>
      StartReleases(s, t);
      RangeKeepsSlots(s, t);
      ReleasedLost(s, Start(s, t), t, HEAP_START_VPN, HEAP_END_VPN, x);
    case _ => OtherLost(s, step, x);
  }

  lemma OtherLost(s: Sys, step: Step, x: Slot)
    requires Enabled(s, step) && Apply(s, step).Some?
    requires !step.Touch? && !step.WriteAcked? && !step.ReadAnswered? && !step.Kill? && !step.Exec?
    ensures Lost(Apply(s, step).value, x) <==> Lost(s, x)
  {
    hide SetByte;
  }

  /** Some step of the run lost slot `x`. */
  ghost predicate LostIn(s: Sys, run: seq<Step>, x: Slot) {
    exists i :: 0 <= i < |run| && After(s, run[..i]).Some? && LosesSlot(After(s, run[..i]).value, run[i], x)
  }

  /** Over every run a slot is in use without an owner exactly if some callback for a deleted page lost it. */
  lemma {:induction false} SlotsAccounted(s: Sys, run: seq<Step>, x: Slot)
    requires Init(s) && After(s, run).Some?
    ensures Lost(After(s, run).value, x) <==> LostIn(s, run, x)
  {
    hide Inv, Shows, Enabled, Safe, Apply, LosesSlot;
    if run == [] {
      NoneLost(s, x);
    } else {
      var less, step := run[..|run| - 1], run[|run| - 1];
      var u := After(s, less).value;
      hide Init, Lost;
      SlotsAccounted(s, less, x);
      RunRefines(s, less);
      StepLost(u, step, x);
      LostLater(s, run, x);
    }
  }

  lemma NoneLost(s: Sys, x: Slot)
    requires Init(s)
    ensures !Lost(s, x)
  {
  }

  lemma LostLater(s: Sys, run: seq<Step>, x: Slot)
    requires run != [] && After(s, run[..|run| - 1]).Some?
    ensures var less := run[..|run| - 1];
      LostIn(s, run, x) <==> LostIn(s, less, x) || LosesSlot(After(s, less).value, run[|run| - 1], x)
  {
    hide After, LosesSlot;
    var less := run[..|run| - 1];
    forall i | 0 <= i < |less|
      ensures run[..i] == less[..i] && run[i] == less[i]
    {
    }
    if LosesSlot(After(s, less).value, run[|run| - 1], x) {
      assert run[..|run| - 1] == less;
    }
    if LostIn(s, less, x) {
      var i :| 0 <= i < |less| && After(s, less[..i]).Some? && LosesSlot(After(s, less[..i]).value, less[i], x);
      assert run[..i] == less[..i] && run[i] == less[i];
    }
  }

  // ---------------------------------------------------- the order of the queue

  /** What was in the queue keeps its order; at most one item comes in, behind all others. */
  ghost predicate FirstInFirstOut(q: seq<Id>, r: seq<Id>) {
    exists drop: set<Id>, add: seq<Id> :: |add| <= 1 && r == Without(q, drop) + add
  }

  lemma InOrder(q: seq<Id>, drop: set<Id>, add: seq<Id>, r: seq<Id>)
    requires |add| <= 1 && r == Without(q, drop) + add
    ensures FirstInFirstOut(q, r)
  {
  }

  lemma Appends(q: seq<Id>, add: seq<Id>, r: seq<Id>)
    requires |add| <= 1 && r == q + add
    ensures FirstInFirstOut(q, r)
  {
    WithoutNothing(q, {});
    InOrder(q, {}, add, r);
  }

  /**
   Every step keeps the queue in order of arrival. An eviction first rotates it, as the search
   does, and takes its head.
   */
  lemma QueueOrder(s: Sys, step: Step)
    requires Inv(s) && Enabled(s, step) && Apply(s, step).Some?
    ensures var r := Apply(s, step).value.active;
      if step.Touch? && !InFrame(s.pt, step.page) && s.free == [] then
        && s.active != [] && Known(s, s.active) && Rotate(s).active != []
        && FirstInFirstOut(Rotate(s).active[1..], r)
      else FirstInFirstOut(s.active, r)
  {
    hide Inv, FirstInFirstOut, Fault, PutAck, GetAck, Delete, Start, SetByte, Rotate;
    match step
    case Touch(p, w, id) => FaultOrder(s, p, w, id);
    case WriteAcked(r) => PutOrder(s, r);
    case ReadAnswered(id) => GetOrder(s, id, s.gets[id].reply.value);
    case Kill(t) => RangeOrder(s, t);
    case Exec(t) => RangeOrder(s, t);
    case _ => OtherOrder(s, step);
  }

  lemma OtherOrder(s: Sys, step: Step)
    requires Enabled(s, step) && Apply(s, step).Some?
    requires !step.Touch? && !step.WriteAcked? && !step.ReadAnswered? && !step.Kill? && !step.Exec?
    ensures FirstInFirstOut(s.active, Apply(s, step).value.active)
  {
    hide SetByte;
    assert Apply(s, step).value.active == s.active + [];
    Appends(s.active, [], s.active);
  }

  lemma RangeOrder(s: Sys, t: Tid)
    ensures FirstInFirstOut(s.active, Delete(s, t).active) && FirstInFirstOut(s.active, Start(s, t).active)
  {
    hide FreeFrames, Cleared, SlotsWithin, ActiveWithin, FirstInFirstOut, Without;
    var u := UnmapRange(s, t, 0, STACK_TOP_VPN);
    var v := UnmapRange(u, t, HEAP_START_VPN, HEAP_END_VPN);
    var all, heap := ActiveWithin(u, t, 0, ALL_PAGES), ActiveWithin(u, t, HEAP_START_VPN, HEAP_END_VPN);
    assert u.active == s.active;
    assert Delete(s, t).active == Without(s.active, all) + [];
    InOrder(s.active, all, [], Delete(s, t).active);
    assert Start(s, t).active == Without(s.active, heap) + [];
    InOrder(s.active, heap, [], Start(s, t).active);
  }

  lemma PutOrder(s: Sys, r: Request)
    requires PutAck(s, r).Some?
    ensures FirstInFirstOut(s.active, PutAck(s, r).value.active)
  {
    hide FirstInFirstOut, FinishPut;
    var q, c := PutAck(s, r).value.active, CountAck(s, r);
    if c.items[r.id].toSwap == 0 {
      FinishQueue(c, r.id);
    }
    assert q == s.active + [] || q == s.active + [r.id];
    Appends(s.active, if q == s.active + [] then [] else [r.id], q);
  }

  lemma FinishQueue(s: Sys, id: Id)
    requires id in s.items
    requires !s.items[id].deleted ==>
      s.items[id].slot.Some? && s.items[id].page in s.pt && s.pt[s.items[id].page].Resident?
    ensures FinishPut(s, id).active ==
      if Referenced(s, id) && !s.items[id].deleted then s.active + [id] else s.active
  {
    hide Without1, FrameFree, Wake, Referenced;
    if Referenced(s, id) {
      if s.items[id].deleted {
      }
    } else if s.items[id].deleted {
    }
  }

  lemma GetOrder(s: Sys, id: Id, data: Chunk)
    requires GetAck(s, id, data).Some?
    ensures FirstInFirstOut(s.active, GetAck(s, id, data).value.active)
  {
    hide FirstInFirstOut, EntryFound, Without1, LoadChunk;
    var q := GetAck(s, id, data).value.active;
    assert q == s.active + [] || q == s.active + [id];
    Appends(s.active, if q == s.active + [] then [] else [id], q);
  }

  lemma UseFrameOrder(s: Sys, p: Page, w: bool, id: Id)
    requires UseFrame(s, p, w, id).Some?
    ensures FirstInFirstOut(s.active, UseFrame(s, p, w, id).value.active)
  {
    hide FirstInFirstOut, Zero, Top;
    var q := UseFrame(s, p, w, id).value.active;
    assert q == s.active + [] || q == s.active + [id];
    Appends(s.active, if q == s.active + [] then [] else [id], q);
  }

  lemma FaultOrder(s: Sys, p: Page, w: bool, id: Id)
    requires Inv(s) && Fault(s, p, w, id).Some?
    ensures var r := Fault(s, p, w, id).value.active;
      if !InFrame(s.pt, p) && s.free == [] then
        && s.active != [] && Known(s, s.active) && Rotate(s).active != [] && FirstInFirstOut(Rotate(s).active[1..], r)
      else FirstInFirstOut(s.active, r)
  {
    hide Inv, FirstInFirstOut, UseFrame, MapPage, SwapOut, Rotate;
    if InFrame(s.pt, p) {
      MapQueue(s, p, w);
      Appends(s.active, [], s.active);
    } else if s.free != [] {
      UseFrameOrder(s, p, w, id);
    } else {
      SwapOutQueue(s, p.tid);
      if SwapOut(s, p.tid).Complete? {
        UseFrameOrder(SwapOut(s, p.tid).next, p, w, id);
      } else {
        Appends(Rotate(s).active[1..], [], Rotate(s).active[1..]);
      }
    }
  }

  lemma MapQueue(s: Sys, p: Page, w: bool)
    requires InFrame(s.pt, p)
    ensures MapPage(s, p, w).active == s.active
  {
  }

  lemma SwapOutQueue(s: Sys, t: Tid)
    requires Inv(s) && !SwapOut(s, t).Halt?
    ensures s.active != [] && Known(s, s.active) && Rotate(s).active != []
    ensures SwapOut(s, t).next.active == Rotate(s).active[1..]
  {
    hide Inv, Rotate, FirstFree, Known;
    VictimIs(s);
    VictimInv(s);
  }
}
