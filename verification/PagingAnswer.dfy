/**
 What a page fault gives the process that made it: when it goes on at once and with
 which access, when it has to wait, and that it gets its access in the end.
 */
module PagingAnswer {
  import opened Seqs
  import opened PagingState
  import opened PagingOps
  import opened PagingFault
  import opened PagingMachine
  import opened PagingStart

  /** Page `p` is mapped to the frame of its entry with the right asked for, and is dirty if it may be written. */
  ghost predicate Granted(s: Sys, p: Page, write: bool) {
    && p in s.hw && ResidentAt(s.pt, p, s.hw[p].frame)
    && s.hw[p].writable == write && (write ==> s.pt[p].dirty)
  }

  /** The process can read any byte of page `p`, and write it if `write`. */
  ghost predicate Accessible(s: Sys, p: Page, write: bool) {
    && (forall off: nat :: off < PAGESIZE ==> Enabled(s, Load(p, off)))
    && (write ==> forall off: nat, b: Byte :: off < PAGESIZE ==> Enabled(s, Store(p, off, b)))
  }

  /** The page that the second-chance search would take was changed since it was last written out. */
  predicate VictimDirty(s: Sys) {
    && s.active != [] && Known(s, s.active)
    && var p := s.items[Head(s)].page; InFrame(s.pt, p) && s.pt[p].dirty
  }

  /** The thread has to wait: for the victim's write to finish, or for its own page to be read. */
  predicate MustWait(s: Sys, p: Page) {
    !InFrame(s.pt, p) && (p in s.pt || (s.free == [] && VictimDirty(s)))
  }

  // ------------------------------------------------------------ the pieces

  lemma MapGrants(s: Sys, p: Page, write: bool)
    requires InFrame(s.pt, p)
    ensures var r := MapPage(s, p, write);
      && Granted(r, p, write) && r.procs == s.procs && r.blocked == s.blocked
      && forall q :: q != p ==> (q in r.hw <==> q in s.hw) && (q in s.hw ==> r.hw[q] == s.hw[q])
  {
  }

  lemma NewPageEntered(s: Sys, p: Page, id: Id)
    requires s.free != []
    ensures var r := AllocNew(s, p, id);
      InFrame(r.pt, p) && r.procs == s.procs && r.blocked == s.blocked && r.hw == s.hw
  {
    hide Zero, Top;
    if p.vpn == IPC_VPN {
      assert AllocNew(s, p, id).items == s.items;
    }
  }

  lemma SwapInBegun(s: Sys, p: Page, id: Id)
    requires s.free != [] && p in s.pt && s.pt[p].Swapped? && s.pt[p].slot in s.file && p.tid in s.procs
    ensures Fetching(BeginSwapIn(s, p, id), p, s.pt[p].slot, id, 0)
    ensures BeginSwapIn(s, p, id).blocked == s.blocked + {p.tid}
  {
    hide Zero;
  }

  /** With a frame at hand an untouched page is mapped at once, and a swapped one is read. */
  lemma FrameUsed(s: Sys, p: Page, write: bool, id: Id)
    requires s.free != [] && (p in s.pt ==> s.pt[p].Swapped? && s.pt[p].slot in s.file) && p.tid in s.procs
    requires p.tid !in s.blocked
    ensures UseFrame(s, p, write, id).Some?
    ensures var r := UseFrame(s, p, write, id).value;
      && (p.tid in r.blocked <==> p in s.pt)
      && (if p in s.pt then Fetching(r, p, s.pt[p].slot, id, 0) else Granted(r, p, write) && r.procs == s.procs)
  {
    hide AllocNew, BeginSwapIn, MapPage, Granted, Fetching;
    if p in s.pt {
      SwapInBegun(s, p, id);
    } else {
      NewPageEntered(s, p, id);
      MapGrants(AllocNew(s, p, id), p, write);
    }
  }

  lemma SlotOnFile(s: Sys, p: Page)
    requires Inv(s) && p in s.pt && s.pt[p].Swapped?
    ensures s.pt[p].slot in s.file
  {
    hide QueuesOk, TablesOk, FramesOk, MappingsOk, PutsOk, GetsOk, DirtyOk, CleanOk, LeavingOk, ArrivingOk, WaitersOk;
    assert SwappedTo(s.pt, p, s.pt[p].slot);
  }

  /** The victim of swap_out is the page the search selects; only a dirty one makes the thread wait. */
  lemma VictimIs(s: Sys)
    requires Inv(s) && Victim(s).Some?
    ensures var g := Victim(s).value;
      && s.active != [] && Known(s, s.active) && g.active != [] && g.active[0] == Head(s)
      && g.pt == s.pt && g.procs == s.procs && g.blocked == s.blocked && g.file == s.file
      && Head(s) in g.items && g.items[Head(s)].page == s.items[Head(s)].page
  {
    hide Inv, ColdIndex, FirstFree, PagesOf;
  }

  /** What becomes of the thread that asks for a frame. */
  lemma FrameSought(s: Sys, t: Tid)
    requires Inv(s) && s.free == [] && !SwapOut(s, t).Halt?
    ensures SwapOut(s, t).Pending? <==> VictimDirty(s)
    ensures SwapOut(s, t).Pending? ==> t in SwapOut(s, t).next.blocked
  {
    hide Inv, Victim, EvictClean, Head, Known;
    VictimIs(s);
    VictimInv(s);
    WriteOutBlocks(Victim(s).value, t);
    hide WriteOut;
  }

  lemma WriteOutBlocks(s: Sys, t: Tid)
    requires HeadReady(s) && s.pt[s.items[s.active[0]].page].frame in s.mem
    ensures t in WriteOut(s, t).blocked
  {
  }

  // --------------------------------------------------------- the answer

  /**
   A fault is answered at once exactly if no wait is needed; then the page is mapped to its own
   frame with the right asked for, so the access that faulted can be made.
   */
  lemma FaultAnswers(s: Sys, p: Page, write: bool, id: Id, m: Flat)
    requires Inv(s) && Shows(s, m) && Enabled(s, Touch(p, write, id)) && Fault(s, p, write, id).Some?
    ensures var r := Fault(s, p, write, id).value;
      && (p.tid in r.blocked <==> MustWait(s, p))
      && (p.tid !in r.blocked ==> Granted(r, p, write) && Accessible(r, p, write))
  {
    hide Inv, Shows, MapPage, SwapOut, UseFrame, VictimDirty, Granted, Accessible;
    var r := Fault(s, p, write, id).value;
    if InFrame(s.pt, p) {
      MapGrants(s, p, write);
    } else if s.free != [] {
      if p in s.pt { SlotOnFile(s, p); }
      FrameUsed(s, p, write, id);
    } else {
      FrameSought(s, p.tid);
      if SwapOut(s, p.tid).Complete? {
        FaultAfterEviction(s, p, write, id, m);
      }
    }
    if p.tid !in r.blocked {
      assert Granted(r, p, write);
      GrantedIsAccessible(r, p, write);
    }
  }

  lemma FaultAfterEviction(s: Sys, p: Page, write: bool, id: Id, m: Flat)
    requires Inv(s) && Shows(s, m) && Runs(s, p.tid) && SwapOut(s, p.tid).Complete? && (p in s.pt ==> s.pt[p].Swapped?)
    ensures var u := SwapOut(s, p.tid).next;
      && u.free != [] && (p in u.pt <==> p in s.pt) && UseFrame(u, p, write, id).Some?
      && var r := UseFrame(u, p, write, id).value;
         && (p.tid in r.blocked <==> p in s.pt)
         && (if p in s.pt then Fetching(r, p, u.pt[p].slot, id, 0) && u.pt[p].Swapped?
             else Granted(r, p, write) && r.procs == s.procs)
  {
    hide Inv, Shows, SwapOut, UseFrame, Granted, Fetching;
    SwapOutInv(s, p.tid, m);
    SwapOutFrame(s, p.tid, p, id);
    var u := SwapOut(s, p.tid).next;
    if p in u.pt { SlotOnFile(u, p); }
    FrameUsed(u, p, write, id);
  }

  lemma GrantedIsAccessible(s: Sys, p: Page, write: bool)
    requires Granted(s, p, write) && Runs(s, p.tid)
    ensures Accessible(s, p, write)
  {
  }

  /** Page `q` has its entry and its mapping, as before. */
  predicate Untouched(s: Sys, r: Sys, q: Page) {
    && (q in r.pt <==> q in s.pt) && (q in s.pt ==> r.pt[q] == s.pt[q])
    && (q in r.hw <==> q in s.hw) && (q in s.hw ==> r.hw[q] == s.hw[q])
  }

  lemma MapLeaves(s: Sys, p: Page, write: bool, q: Page)
    requires InFrame(s.pt, p) && q != p
    ensures Untouched(s, MapPage(s, p, write), q)
  {
  }

  lemma NewPageLeaves(s: Sys, p: Page, id: Id, q: Page)
    requires s.free != [] && q != p
    ensures Untouched(s, AllocNew(s, p, id), q)
  {
    hide Zero, Top;
    if p.vpn == IPC_VPN {
      assert AllocNew(s, p, id).items == s.items;
    }
  }

  lemma SwapInLeaves(s: Sys, p: Page, id: Id, q: Page)
    requires s.free != [] && p in s.pt && s.pt[p].Swapped? && q != p
    ensures Untouched(s, BeginSwapIn(s, p, id), q)
  {
    hide Zero, Top;
  }

  lemma UseFrameLeaves(s: Sys, p: Page, write: bool, id: Id, q: Page)
    requires UseFrame(s, p, write, id).Some? && q != p
    ensures Untouched(s, UseFrame(s, p, write, id).value, q)
  {
    hide AllocNew, BeginSwapIn, MapPage;
    if p in s.pt {
      SwapInLeaves(s, p, id, q);
    } else {
      NewPageEntered(s, p, id);
      NewPageLeaves(s, p, id, q);
      MapLeaves(AllocNew(s, p, id), p, write, q);
    }
  }

  /** Eviction gives page `q` no new mapping, and changes its entry only if it is the victim and clean. */
  predicate Spared(s: Sys, r: Sys, q: Page) {
    && (q in r.hw ==> q in s.hw && r.hw[q] == s.hw[q])
    && (q in r.pt <==> q in s.pt)
    && (q in s.pt && r.pt[q] != s.pt[q] ==>
          && Known(s, s.active) && s.active != []
          && q == s.items[Head(s)].page && !VictimDirty(s) && r.pt[q].Swapped?)
  }

  lemma SwapOutSpares(s: Sys, t: Tid, q: Page)
    requires Inv(s) && !SwapOut(s, t).Halt?
    ensures Spared(s, SwapOut(s, t).next, q)
  {
    hide Inv, Victim, Head, Known, Spared;
    VictimIs(s);
    VictimInv(s);
    VictimUnmaps(s, q);
    assert Spared(s, SwapOut(s, t).next, q) by { Evicted(s, Victim(s).value, t, q); }
  }

  lemma VictimUnmaps(s: Sys, q: Page)
    requires Inv(s) && Victim(s).Some?
    ensures var g := Victim(s).value; q in g.hw ==> q in s.hw && g.hw[q] == s.hw[q]
  {
    hide Inv, ColdIndex, FirstFree, PagesOf;
  }

  lemma Evicted(s: Sys, g: Sys, t: Tid, q: Page)
    requires Victim(s) == Some(g) && HeadReady(g) && g.pt[g.items[g.active[0]].page].frame in g.mem
    requires s.active != [] && Known(s, s.active) && g.pt == s.pt && g.active[0] == Head(s)
    requires Head(s) in g.items && g.items[Head(s)].page == s.items[Head(s)].page
    requires q in g.hw ==> q in s.hw && g.hw[q] == s.hw[q]
    ensures Spared(s, SwapOut(s, t).next, q)
  {
    hide Victim, Head, Known;
  }

  /**
   A fault changes no other page's entry or mapping, of the same process or another, unless it has
   to evict; then it maps no other page anew, and changes no entry but that of a clean victim.
   */
  lemma FaultLeaves(s: Sys, p: Page, write: bool, id: Id, q: Page)
    requires Inv(s) && Fault(s, p, write, id).Some? && q != p
    ensures var r := Fault(s, p, write, id).value;
      if InFrame(s.pt, p) || s.free != [] then Untouched(s, r, q) else Spared(s, r, q)
  {
    hide Inv, MapPage, SwapOut, UseFrame, Untouched, Spared;
    if InFrame(s.pt, p) {
      MapLeaves(s, p, write, q);
    } else if s.free != [] {
      UseFrameLeaves(s, p, write, id, q);
    } else {
      SwapOutSpares(s, p.tid, q);
      if SwapOut(s, p.tid).Complete? {
        UseFrameLeaves(SwapOut(s, p.tid).next, p, write, id, q);
        SparedThen(s, SwapOut(s, p.tid).next, Fault(s, p, write, id).value, q);
      }
    }
  }

  lemma SparedThen(s: Sys, u: Sys, r: Sys, q: Page)
    requires Spared(s, u, q) && Untouched(u, r, q)
    ensures Spared(s, r, q)
  {
    hide Head, Known, VictimDirty;
  }

  /**
   Stores, the server and the callbacks map and unmap nothing; the only entry they change is that of
   a page whose last chunk went out, which becomes swapped to its slot if nobody mapped it again.
   */
  lemma CallbackLeaves(s: Sys, step: Step)
    requires Enabled(s, step) && Apply(s, step).Some? && !step.Touch? && !step.Kill? && !step.Exec?
    ensures var r := Apply(s, step).value;
      && r.hw == s.hw && r.procs == (if step.Birth? then s.procs + {step.tid} else s.procs)
      && r.pt == if step.WriteAcked? && GoesOut(s, step.req)
                 then s.pt[s.items[step.req.id].page := Swapped(s.items[step.req.id].slot.value)] else s.pt
  {
    hide SetByte, PutAck, GetAck;
    match step
    case WriteAcked(r) => PutLeaves(s, r);
    case ReadAnswered(id) => GetLeaves(s, id, s.gets[id].reply.value);
    case _ =>
  }

  /** The acknowledgement is the last one for a page that exists and is not mapped. */
  predicate GoesOut(s: Sys, r: Request) {
    && r.id in s.items && s.items[r.id].toSwap == BATCH_SIZE && !s.items[r.id].deleted
    && EntryFound(s, r.id) && !Referenced(s, r.id)
  }

  lemma PutLeaves(s: Sys, r: Request)
    requires PutAck(s, r).Some?
    ensures var u := PutAck(s, r).value;
      && u.hw == s.hw && u.procs == s.procs
      && u.pt == if GoesOut(s, r) then s.pt[s.items[r.id].page := Swapped(s.items[r.id].slot.value)] else s.pt
  {
    hide FinishPut;
    var c := CountAck(s, r);
    if c.items[r.id].toSwap == 0 {
      FinishLeaves(c, r.id);
    }
  }

  lemma FinishLeaves(s: Sys, id: Id)
    requires id in s.items
    requires !s.items[id].deleted ==>
      s.items[id].slot.Some? && s.items[id].page in s.pt && s.pt[s.items[id].page].Resident?
    ensures var u := FinishPut(s, id);
      && u.hw == s.hw && u.procs == s.procs
      && u.pt == if !Referenced(s, id) && !s.items[id].deleted
                 then s.pt[s.items[id].page := Swapped(s.items[id].slot.value)] else s.pt
  {
    hide Without1, FrameFree, Wake, Referenced;
    if Referenced(s, id) {
      if s.items[id].deleted {
      }
    } else if s.items[id].deleted {
    }
  }

  lemma GetLeaves(s: Sys, id: Id, data: Chunk)
    requires GetAck(s, id, data).Some?
    ensures var u := GetAck(s, id, data).value; u.hw == s.hw && u.procs == s.procs && u.pt == s.pt
  {
    hide LoadChunk, EntryFound, Without1;
    if s.items[id].deleted {
    } else if s.items[id].toSwap + BATCH_SIZE == PAGESIZE {
    }
  }

  // ------------------------------------------------------ in the end

  /** Page `p` is in its frame and its process runs: one more touch gives it the access. */
  lemma BackServed(s: Sys, p: Page, b: Bytes, write: bool) returns (step: Step, t: Sys)
    requires Back(s, p, b) && p.vpn <= STACK_TOP_VPN
    ensures IsQuiet(step) && Enabled(s, step) && Apply(s, step) == Some(t) && Accessible(t, p, write)
  {
    hide MapPage, Accessible, Granted;
    var id := FreshId(s.items.Keys);
    step, t := Touch(p, write, id), MapPage(s, p, write);
    MapGrants(s, p, write);
    GrantedIsAccessible(t, p, write);
  }

  /** The page is read, chunk by chunk, and touched again. */
  lemma FetchedServed(s: Sys, p: Page, x: Slot, id: Id, write: bool) returns (run: seq<Step>, t: Sys)
    requires Fetching(s, p, x, id, 0) && p.vpn <= STACK_TOP_VPN
    ensures Quiet(run) && After(s, run) == Some(t) && Accessible(t, p, write)
  {
    assert x in s.file;
    hide Fetching, Back, After, Accessible, Enabled, Apply;
    var rest, v := FetchAll(s, p, x, id, 0);
    var step;
    step, t := BackServed(v, p, s.file[x], write);
    QuietStep(v, step, t);
    AfterCat(s, rest, [step]);
    run := rest + [step];
  }

  /** The state a fault leads to when its page is being read. */
  lemma FaultFetches(s: Sys, p: Page, write: bool, id: Id, m: Flat) returns (x: Slot)
    requires Inv(s) && Shows(s, m) && Enabled(s, Touch(p, write, id)) && Fault(s, p, write, id).Some?
    requires p.tid in Fault(s, p, write, id).value.blocked && AllocFrame(s, p.tid).Complete?
    ensures Fetching(Fault(s, p, write, id).value, p, x, id, 0)
  {
    hide Inv, Shows, MapPage, SwapOut, UseFrame, VictimDirty, Granted, Accessible, Fetching;
    FaultAnswers(s, p, write, id, m);
    if s.free != [] {
      SlotOnFile(s, p);
      FrameUsed(s, p, write, id);
      x := s.pt[p].slot;
    } else {
      FrameSought(s, p.tid);
      FaultAfterEviction(s, p, write, id, m);
      x := SwapOut(s, p.tid).next.pt[p].slot;
    }
  }

  /** With a free frame a fault leads to the access without any other page being written. */
  lemma FrameServed(s: Sys, p: Page, write: bool, id: Id, m: Flat) returns (run: seq<Step>, t: Sys)
    requires Inv(s) && Shows(s, m) && Enabled(s, Touch(p, write, id)) && Fault(s, p, write, id).Some?
    requires AllocFrame(s, p.tid).Complete? || InFrame(s.pt, p)
    ensures Quiet(run) && After(s, run) == Some(t) && Accessible(t, p, write)
  {
    hide Inv, Shows, Fault, AllocFrame, After, Accessible, Granted, Fetching;
    FaultAnswers(s, p, write, id, m);
    var step, r := Touch(p, write, id), Fault(s, p, write, id).value;
    if p.tid !in r.blocked {
      QuietStep(s, step, r);
      run, t := [step], r;
    } else {
      var x := FaultFetches(s, p, write, id, m);
      var rest;
      rest, t := FetchedServed(r, p, x, id, write);
      QuietThen(s, step, r, rest);
      run := [step] + rest;
    }
  }

  /** The victim is on its way out, and nobody has touched it again. */
  lemma VictimDrains(s: Sys, t: Tid, m: Flat) returns (i: Id)
    requires Inv(s) && Shows(s, m) && Runs(s, t) && SwapOut(s, t).Pending?
    ensures var r := SwapOut(s, t).next;
      Drains(r, i) && r.items[i].initiator == Some(t) && r.procs == s.procs
  {
    hide Inv, Shows, Victim, Drains, Outstanding;
    SwapOutInv(s, t, m);
    VictimInv(s);
    VictimIs(s);
    var g := Victim(s).value;
    i := g.active[0];
    WriteOutLeaves(g, t);
    var r := SwapOut(s, t).next;
    LeavingInFlight(r, i);
    LeavingDrains(r, i);
  }

  lemma LeavingDrains(s: Sys, i: Id)
    requires EntryFound(s, i) && !s.items[i].deleted && s.items[i].page !in s.hw && s.items[i].slot.value in s.file
    requires forall k: nat :: k < CHUNKS && Request(i, k) in s.puts ==>
      s.puts[Request(i, k)].slot == s.items[i].slot.value
    requires Outstanding(s.puts, i) != {} && s.items[i].toSwap == BATCH_SIZE * |Outstanding(s.puts, i)|
    ensures Drains(s, i)
  {
  }

  lemma WriteOutLeaves(g: Sys, t: Tid)
    requires Inv(g) && HeadReady(g) && g.pt[g.items[g.active[0]].page].frame in g.mem
    requires g.items[g.active[0]].page !in g.hw
    ensures var r, i := WriteOut(g, t), g.active[0];
      Leaving(r, i) && r.items[i].initiator == Some(t) && r.items[i].page !in r.hw && r.procs == g.procs
  {
    hide TablesOk, FramesOk, MappingsOk, SlotsOk, StoresOk, PutsOk, DirtyOk, CleanOk, LeavingOk, ArrivingOk, WaitersOk;
    ActiveNotRead(g, g.active[0]);
  }

  /**
   A page fault that does not stop the server is served: with the NFS server answering and nobody
   else interfering, the victim goes out, the page comes in and the access can be made.
   */
  lemma FaultServed(s: Sys, p: Page, write: bool, id: Id, m: Flat) returns (run: seq<Step>, t: Sys)
    requires Inv(s) && Shows(s, m) && Enabled(s, Touch(p, write, id)) && Fault(s, p, write, id).Some?
    ensures Quiet(run) && After(s, run) == Some(t) && Accessible(t, p, write)
  {
    hide Inv, Shows, SwapOut, UseFrame, MapPage, After, Accessible, Drains, Ends, Gone;
    if InFrame(s.pt, p) || AllocFrame(s, p.tid).Complete? {
      run, t := FrameServed(s, p, write, id, m);
    } else {
      var step, r := Touch(p, write, id), SwapOut(s, p.tid).next;
      FaultInv(s, p, write, id, m);
      var i := VictimDrains(s, p.tid, m);
      var out, u := VictimGone(r, i, p.tid, m);
      var id' := FreshId(u.items.Keys);
      TouchPossible(u, p, write, id', m);
      var rest;
      rest, t := FrameServed(u, p, write, id', m);
      AfterCat(r, out, rest);
      QuietThen(s, step, r, out + rest);
      run := [step] + (out + rest);
    }
  }

  /** Once the victim has gone there is a free frame, and the thread that waited runs. */
  lemma VictimGone(r: Sys, i: Id, t: Tid, m: Flat) returns (out: seq<Step>, u: Sys)
    requires Inv(r) && Shows(r, m) && Drains(r, i) && r.items[i].initiator == Some(t) && t in r.procs
    ensures Quiet(out) && After(r, out) == Some(u) && u.free != [] && Runs(u, t) && Inv(u) && Shows(u, m)
  {
    assert i in r.items && r.items[i].slot.Some? && r.items[i].slot.value in r.file;
    hide Inv, Shows, Drains, Ends, After;
    var b := FinalBytes(r, i);
    out, u := DrainAll(r, i, b);
    RunRefinesFrom(r, m, out);
    QuietFlat(m, out);
  }

  lemma TouchPossible(s: Sys, p: Page, write: bool, id: Id, m: Flat)
    requires Inv(s) && Shows(s, m) && Runs(s, p.tid) && p.vpn <= STACK_TOP_VPN && id !in s.items && s.free != []
    ensures Enabled(s, Touch(p, write, id)) && Fault(s, p, write, id).Some? && AllocFrame(s, p.tid).Complete?
  {
    hide Inv, Shows, UseFrame, MapPage;
    if !InFrame(s.pt, p) {
      if p in s.pt { SlotOnFile(s, p); }
      FrameUsed(s, p, write, id);
    }
  }
}
