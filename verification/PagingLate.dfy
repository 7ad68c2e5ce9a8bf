/**
 Callbacks that arrive after their page is gone: a transfer in flight when a
 process is deleted, or its heap freed, is marked, the mark stays for as long as
 the item exists, and a callback for a marked item touches nothing. In between
 anything may happen, also the same thread id and address coming into use again.
 */
module PagingLate {
  import opened Seqs
  import opened PagingState
  import opened PagingOps
  import opened PagingDelete
  import opened PagingMachine
  import opened PagingTheorems

  /** Item `id` is marked: its page was freed. */
  predicate Marked(s: Sys, id: Id) {
    id in s.items && s.items[id].deleted
  }

  // ----------------------------------------------------- freeing sets the mark

  /** Deleting a process marks every item of its pages that is not freed with it. */
  lemma KillMarks(s: Sys, t: Tid, id: Id)
    requires Inv(s) && id in Delete(s, t).items && s.items[id].page.tid == t
    ensures Marked(Delete(s, t), id)
  {
    assert QueuesOk(s.items, s.active, s.swapping);
    hide Inv, QueuesOk, FreeFrames;
    var u := UnmapRange(s, t, 0, STACK_TOP_VPN);
    FreedItems(u, t, 0, ALL_PAGES, true);
  }

  /** start_process marks every item of a heap page that is not freed with it. */
  lemma StartMarks(s: Sys, t: Tid, id: Id)
    requires Inv(s) && id in Start(s, t).items && Within(s.items[id].page, t, HEAP_START_VPN, HEAP_END_VPN)
    ensures Marked(Start(s, t), id)
  {
    assert QueuesOk(s.items, s.active, s.swapping);
    hide Inv, QueuesOk, FreeFrames;
    var u := UnmapRange(s, t, 0, STACK_TOP_VPN);
    FreedItems(u, t, HEAP_START_VPN, HEAP_END_VPN, false);
  }

  // ------------------------------------------------------- the mark stays

  /** A marked item that still exists is still marked, for the same page. */
  ghost predicate StillMarked(s: Sys, s': Sys, id: Id) {
    Marked(s, id) && id in s'.items ==> s'.items[id].deleted && s'.items[id].page == s.items[id].page
  }

  lemma PutAckStill(s: Sys, r: Request, id: Id)
    requires PutAck(s, r).Some?
    ensures StillMarked(s, PutAck(s, r).value, id)
  {
    hide Without1, FinishPut;
    var c := CountAck(s, r);
    assert StillMarked(s, c, id);
    if PutAck(s, r) != Some(c) {
      FinishStill(c, r.id, id);
    }
  }

  lemma FinishStill(s: Sys, i: Id, id: Id)
    requires i in s.items
    requires !s.items[i].deleted ==> s.items[i].slot.Some? && s.items[i].page in s.pt && s.pt[s.items[i].page].Resident?
    ensures StillMarked(s, FinishPut(s, i), id)
  {
    hide Without1;
  }

  lemma GetAckStill(s: Sys, i: Id, data: Chunk, id: Id)
    requires GetAck(s, i, data).Some?
    ensures StillMarked(s, GetAck(s, i, data).value, id)
  {
    hide EntryFound, Without1, LoadChunk;
  }

  /** Eviction works on an active item, which is not marked. */
  lemma EvictionStill(s: Sys, t: Tid, id: Id)
    requires QueuesOk(s.items, s.active, s.swapping) && Marked(s, id)
    ensures !SwapOut(s, t).Halt? ==> id in SwapOut(s, t).next.items && SwapOut(s, t).next.items[id] == s.items[id]
  {
    hide QueuesOk, Victim, WriteOut, EvictClean, Marked;
    if Victim(s).Some? {
      VictimStill(s, id);
      var g := Victim(s).value;
      if SwapOut(s, t).Pending? {
        WriteOutStill(g, t, id);
      } else if SwapOut(s, t).Complete? {
        EvictCleanStill(g, id);
      }
    }
  }

  lemma VictimStill(s: Sys, id: Id)
    requires QueuesOk(s.items, s.active, s.swapping) && Marked(s, id) && Victim(s).Some?
    ensures var g := Victim(s).value; g.active != [] && id != g.active[0] && id in g.items && g.items[id] == s.items[id]
  {
    hide FirstFree, ColdIndex, NoDup;
  }

  lemma WriteOutStill(s: Sys, t: Tid, id: Id)
    requires HeadReady(s) && s.pt[s.items[s.active[0]].page].frame in s.mem && id in s.items && id != s.active[0]
    ensures id in WriteOut(s, t).items && WriteOut(s, t).items[id] == s.items[id]
  {
  }

  lemma EvictCleanStill(s: Sys, id: Id)
    requires HeadReady(s) && id in s.items && id != s.active[0]
    ensures id in EvictClean(s).items && EvictClean(s).items[id] == s.items[id]
  {
  }

  lemma TouchStill(s: Sys, p: Page, w: bool, nid: Id, id: Id)
    requires QueuesOk(s.items, s.active, s.swapping) && Marked(s, id) && nid !in s.items && Fault(s, p, w, nid).Some?
    ensures StillMarked(s, Fault(s, p, w, nid).value, id)
  {
    hide QueuesOk, SwapOut, UseFrame, MapPage;
    if InFrame(s.pt, p) {
      MapStill(s, p, w, id);
    } else {
      EvictionStill(s, p.tid, id);
      match AllocFrame(s, p.tid)
      case Pending(g) =>
      case Complete(g) => UseFrameStill(g, p, w, nid, id);
    }
  }

  lemma MapStill(s: Sys, p: Page, w: bool, id: Id)
    requires InFrame(s.pt, p)
    ensures MapPage(s, p, w).items == s.items
  {
  }

  lemma UseFrameStill(s: Sys, p: Page, w: bool, nid: Id, id: Id)
    requires id in s.items && id != nid && UseFrame(s, p, w, nid).Some?
    ensures id in UseFrame(s, p, w, nid).value.items && UseFrame(s, p, w, nid).value.items[id] == s.items[id]
  {
    hide Zero, Top;
  }

  lemma StepStill(s: Sys, step: Step, id: Id)
    requires Inv(s) && Enabled(s, step) && Apply(s, step).Some? && Marked(s, id)
    ensures StillMarked(s, Apply(s, step).value, id)
  {
    hide Inv, QueuesOk, Fault, PutAck, GetAck, Delete, Start, StoreByte, ServePut, ServeGet, Marked;
    QueuesHold(s);
    match step
    case Kill(t) => FreedStill(s, t, id);
    case Exec(t) => FreedStill(s, t, id);
    case Touch(p, w, nid) => TouchStill(s, p, w, nid, id);
    case WriteAcked(r) => PutAckStill(s, r, id);
    case ReadAnswered(i) => GetAckStill(s, i, s.gets[i].reply.value, id);
    case _ => OtherStill(s, step, id);
  }

  lemma FreedStill(s: Sys, t: Tid, id: Id)
    ensures StillMarked(s, Delete(s, t), id) && StillMarked(s, Start(s, t), id)
  {
    hide FreeFrames, Cleared, SlotsWithin, Without;
  }

  lemma QueuesHold(s: Sys)
    requires Inv(s)
    ensures QueuesOk(s.items, s.active, s.swapping)
  {
    hide QueuesOk, TablesOk, FramesOk, MappingsOk, SlotsOk, StoresOk, PutsOk, GetsOk, DirtyOk, CleanOk, LeavingOk,
      ArrivingOk, WaitersOk;
  }

  lemma OtherStill(s: Sys, step: Step, id: Id)
    requires Enabled(s, step) && Apply(s, step).Some?
    requires !step.Kill? && !step.Exec? && !step.Touch? && !step.WriteAcked? && !step.ReadAnswered?
    ensures Apply(s, step).value.items == s.items && StillMarked(s, Apply(s, step).value, id)
  {
  }

  // ------------------------------------------------------------------ over runs

  /** A request for item `id` is in flight. */
  predicate Flies(s: Sys, id: Id) {
    Outstanding(s.puts, id) != {} || id in s.gets
  }

  ghost predicate FliesAfter(s: Sys, run: seq<Step>, id: Id) {
    After(s, run).Some? && Flies(After(s, run).value, id)
  }

  /** The item of a request in flight exists, and deletion leaves the request in flight. */
  lemma FlyingItem(s: Sys, id: Id)
    requires Inv(s) && Flies(s, id)
    ensures id in s.items
  {
    hide TablesOk, FramesOk, MappingsOk, SlotsOk, StoresOk, DirtyOk, CleanOk, LeavingOk, ArrivingOk, WaitersOk;
    if id !in s.gets {
      var k :| k in Outstanding(s.puts, id);
      assert Request(id, k) in s.puts;
    }
  }

  /** The mark stays over any continuation throughout which requests for the item are in flight. */
  lemma {:induction false} MarkStays(s: Sys, run: seq<Step>, more: seq<Step>, id: Id)
    requires Init(s) && After(s, run).Some? && Marked(After(s, run).value, id)
    requires forall k :: 0 <= k <= |more| ==> FliesAfter(s, run + more[..k], id)
    ensures FliesAfter(s, run + more, id) && Marked(After(s, run + more).value, id)
  {
    hide Inv, Shows, Apply, Enabled, Safe, Init, Flies;
    assert more[..|more|] == more;
    if more == [] {
      assert run + more == run;
    } else {
      var less, step := more[..|more| - 1], more[|more| - 1];
      forall k | 0 <= k <= |less|
        ensures FliesAfter(s, run + less[..k], id)
      {
        assert less[..k] == more[..k];
      }
      MarkStays(s, run, less, id);
      assert (run + more)[..|run + more| - 1] == run + less;
      assert (run + more)[|run + more| - 1] == step;
      RunRefines(s, run + less);
      RunRefines(s, run + more);
      assert FliesAfter(s, run + more[..|more|], id);
      FlyingItem(After(s, run + more).value, id);
      StepStill(After(s, run + less).value, step, id);
    }
  }

  /** `step` is the callback of a request for item `id`. */
  predicate CallbackFor(step: Step, id: Id) {
    step == ReadAnswered(id) || (step.WriteAcked? && step.req.id == id)
  }

  /** From a marked item on, callbacks are harmless for as long as requests for it are in flight. */
  lemma MarkedFrom(s: Sys, run: seq<Step>, more: seq<Step>, step: Step, id: Id)
    requires Init(s) && After(s, run).Some? && Marked(After(s, run).value, id)
    requires forall k :: 0 <= k <= |more| ==> FliesAfter(s, run + more[..k], id)
    requires CallbackFor(step, id) && After(s, run + more).Some? && Enabled(After(s, run + more).value, step)
    ensures var r := After(s, run + more).value; Apply(r, step).Some? && SameMemory(r, Apply(r, step).value)
  {
    hide Init, After, Flies, Enabled, Apply, SameMemory;
    MarkStays(s, run, more, id);
    MarkedCallback(After(s, run + more).value, step, id);
  }

  lemma LastStep(s: Sys, run: seq<Step>, step: Step)
    requires After(s, run + [step]).Some?
    ensures After(s, run).Some? && Enabled(After(s, run).value, step) &&
      After(s, run + [step]) == Apply(After(s, run).value, step)
  {
    hide Enabled, Safe, Apply;
    assert (run + [step])[..|run + [step]| - 1] == run;
  }

  lemma FliesFirst(s: Sys, run: seq<Step>, more: seq<Step>, id: Id)
    requires forall k :: 0 <= k <= |more| ==> FliesAfter(s, run + more[..k], id)
    ensures FliesAfter(s, run, id)
  {
    hide After, Flies;
    assert run + more[..0] == run;
    assert FliesAfter(s, run + more[..0], id);
  }

  /** Where a transfer is in flight its item exists. */
  lemma FlyingAfter(s: Sys, run: seq<Step>, id: Id)
    requires Init(s) && FliesAfter(s, run, id)
    ensures After(s, run).Some? && id in After(s, run).value.items
  {
    hide Inv, Shows, After, Init, Flies;
    RunRefines(s, run);
    FlyingItem(After(s, run).value, id);
  }

  /**
   A transfer in flight when its process is deleted: whenever its callbacks come, as long as the
   transfer has been in flight ever since, they change no frame, entry, mapping, slot or active
   page, whoever uses the thread id and the address by then.
   */
  lemma LateCallback(s: Sys, run: seq<Step>, t: Tid, more: seq<Step>, step: Step, id: Id)
    requires Init(s) && After(s, run).Some? && id in After(s, run).value.items &&
      After(s, run).value.items[id].page.tid == t
    requires forall k :: 0 <= k <= |more| ==> FliesAfter(s, run + [Kill(t)] + more[..k], id)
    requires CallbackFor(step, id) && After(s, run + [Kill(t)] + more).Some? &&
      Enabled(After(s, run + [Kill(t)] + more).value, step)
    ensures var r := After(s, run + [Kill(t)] + more).value; Apply(r, step).Some? && SameMemory(r, Apply(r, step).value)
  {
    hide Inv, Shows, Init, Flies, SameMemory, Delete, After, Enabled, Marked;
    FliesFirst(s, run + [Kill(t)], more, id);
    FlyingAfter(s, run + [Kill(t)], id);
    LastStep(s, run, Kill(t));
    RunRefines(s, run);
    KillMarks(After(s, run).value, t, id);
    hide Apply;
    MarkedFrom(s, run + [Kill(t)], more, step, id);
  }

  /** The same for a page of the loader's heap when start_process frees it. */
  lemma LateAfterStart(s: Sys, run: seq<Step>, t: Tid, more: seq<Step>, step: Step, id: Id)
    requires Init(s) && After(s, run).Some? && id in After(s, run).value.items
    requires Within(After(s, run).value.items[id].page, t, HEAP_START_VPN, HEAP_END_VPN)
    requires forall k :: 0 <= k <= |more| ==> FliesAfter(s, run + [Exec(t)] + more[..k], id)
    requires CallbackFor(step, id) && After(s, run + [Exec(t)] + more).Some? &&
      Enabled(After(s, run + [Exec(t)] + more).value, step)
    ensures var r := After(s, run + [Exec(t)] + more).value; Apply(r, step).Some? && SameMemory(r, Apply(r, step).value)
  {
    hide Inv, Shows, Init, Flies, SameMemory, Start, After, Enabled, Marked, Within;
    FliesFirst(s, run + [Exec(t)], more, id);
    FlyingAfter(s, run + [Exec(t)], id);
    LastStep(s, run, Exec(t));
    RunRefines(s, run);
    StartMarks(After(s, run).value, t, id);
    hide Apply;
    MarkedFrom(s, run + [Exec(t)], more, step, id);
  }
}
