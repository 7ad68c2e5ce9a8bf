/**
 What start_process does to the memory that processes read. It unmaps pages that
 may be on their way out, which makes a page that was changed meanwhile look
 untouched. The condition StartSafe is shown to be exactly the condition under
 which every later read is right.
 */
module PagingStart {
  import opened Seqs
  import opened PagingState
  import opened PagingOps
  import opened PagingGet
  import opened PagingDelete
  import opened PagingMachine

  // ---------------------------------------------------- runs from any state

  function FlatFrom(m: Flat, run: seq<Step>): Flat {
    if run == [] then m else FlatStep(FlatFrom(m, run[..|run| - 1]), run[|run| - 1])
  }

  lemma {:induction false} RunRefinesFrom(s: Sys, m: Flat, run: seq<Step>)
    requires Inv(s) && Shows(s, m) && After(s, run).Some?
    ensures Inv(After(s, run).value) && Shows(After(s, run).value, FlatFrom(m, run))
  {
    hide Inv, Shows, Apply, Enabled, Safe;
    if run != [] {
      RunRefinesFrom(s, m, run[..|run| - 1]);
      StepRefines(After(s, run[..|run| - 1]).value, run[|run| - 1], FlatFrom(m, run[..|run| - 1]));
    }
  }

  lemma {:induction false} AfterCat(s: Sys, a: seq<Step>, b: seq<Step>)
    requires After(s, a).Some?
    ensures After(s, a + b) == After(After(s, a).value, b)
  {
    hide Apply, Enabled, Safe;
    if b == [] {
      assert a + b == a;
    } else {
      var less := b[..|b| - 1];
      assert (a + b)[..|a + b| - 1] == a + less && (a + b)[|a + b| - 1] == b[|b| - 1];
      AfterCat(s, a, less);
    }
  }

  /** Steps that neither store, start nor delete. */
  predicate IsQuiet(step: Step) {
    step.Touch? || step.ServerWrites? || step.WriteAcked? || step.ServerReads? || step.ReadAnswered?
  }

  predicate Quiet(run: seq<Step>) {
    forall i :: 0 <= i < |run| ==> IsQuiet(run[i])
  }

  lemma {:induction false} QuietFlat(m: Flat, run: seq<Step>)
    requires Quiet(run)
    ensures FlatFrom(m, run) == m
  {
    if run != [] {
      assert IsQuiet(run[|run| - 1]);
      QuietFlat(m, run[..|run| - 1]);
    }
  }

  lemma QuietStep(s: Sys, step: Step, t: Sys)
    requires IsQuiet(step) && Enabled(s, step) && Apply(s, step) == Some(t)
    ensures After(s, [step]) == Some(t) && Quiet([step])
  {
    assert [step][..0] == [];
    assert After(s, []) == Some(s);
    hide Enabled, Apply;
    assert Safe(s, step);
  }

  lemma QuietThen(s: Sys, step: Step, t: Sys, run: seq<Step>)
    requires IsQuiet(step) && Enabled(s, step) && Apply(s, step) == Some(t) && Quiet(run)
    ensures After(s, [step] + run) == After(t, run) && Quiet([step] + run)
  {
    QuietStep(s, step, t);
    hide Enabled, Apply, After;
    AfterCat(s, [step], run);
  }

  // ------------------------------------------------ requests carried out

  /** A write that was carried out and not yet acknowledged has left its data in the slot. */
  ghost predicate Executed(puts: map<Request, WriteOp>, file: map<Slot, Bytes>) {
    forall r :: r in puts && puts[r].done ==>
      r.chunk < CHUNKS && puts[r].slot in file && file[puts[r].slot][r.chunk] == puts[r].data
  }

  /** Requests are only added undone; the swap file is unchanged. */
  ghost predicate OnlyNew(s: Sys, s': Sys) {
    s'.file == s.file && forall r :: r in s'.puts ==> (r in s.puts && s'.puts[r] == s.puts[r]) || !s'.puts[r].done
  }

  lemma ServeExecuted(s: Sys, r: Request)
    requires Inv(s) && Executed(s.puts, s.file) && r in s.puts && r.chunk < CHUNKS && s.puts[r].slot in s.file
    ensures Executed(ServePut(s, r).puts, ServePut(s, r).file)
  {
    hide QueuesOk, TablesOk, FramesOk, MappingsOk, StoresOk, GetsOk, DirtyOk, CleanOk, LeavingOk, ArrivingOk, WaitersOk;
    var s' := ServePut(s, r);
    forall q | q in s'.puts && s'.puts[q].done
      ensures q.chunk < CHUNKS && s'.puts[q].slot in s'.file && s'.file[s'.puts[q].slot][q.chunk] == s'.puts[q].data
    {
      if q != r && s.puts[q].slot == s.puts[r].slot {
        assert OwnsSlot(s.items, q.id, s.puts[q].slot) && OwnsSlot(s.items, r.id, s.puts[r].slot);
        assert q == Request(q.id, q.chunk) && r == Request(r.id, r.chunk);
      }
    }
  }

  lemma SwapOutNew(s: Sys, t: Tid)
    ensures !SwapOut(s, t).Halt? ==> OnlyNew(s, SwapOut(s, t).next)
  {
    if Victim(s).Some? {
      hide Victim, WriteOut, EvictClean;
      var g := Victim(s).value;
      if SwapOut(s, t).Pending? {
        WriteOutPuts(g, t);
      } else if SwapOut(s, t).Complete? {
        EvictPuts(g);
      }
    }
  }

  lemma WriteOutPuts(s: Sys, t: Tid)
    requires HeadReady(s) && s.pt[s.items[s.active[0]].page].frame in s.mem
    ensures OnlyNew(s, WriteOut(s, t))
  {
  }

  lemma EvictPuts(s: Sys)
    requires HeadReady(s)
    ensures EvictClean(s).puts == s.puts && EvictClean(s).file == s.file
  {
  }

  lemma UseFramePuts(s: Sys, p: Page, w: bool, id: Id)
    requires UseFrame(s, p, w, id).Some?
    ensures UseFrame(s, p, w, id).value.puts == s.puts && UseFrame(s, p, w, id).value.file == s.file
  {
    hide AllocNew, BeginSwapIn, MapPage;
    if p !in s.pt {
      NewPagePuts(s, p, id);
      MapPuts(AllocNew(s, p, id), p, w);
    } else {
      SwapInPuts(s, p, id);
    }
  }

  lemma NewPagePuts(s: Sys, p: Page, id: Id)
    requires s.free != []
    ensures var r := AllocNew(s, p, id); r.puts == s.puts && r.file == s.file && InFrame(r.pt, p)
  {
    hide Zero, Top;
    if p.vpn == IPC_VPN {
      assert AllocNew(s, p, id).items == s.items;
    }
  }

  lemma SwapInPuts(s: Sys, p: Page, id: Id)
    requires s.free != [] && p in s.pt && s.pt[p].Swapped?
    ensures var r := BeginSwapIn(s, p, id); r.puts == s.puts && r.file == s.file
  {
    hide Zero, Top;
  }

  lemma MapPuts(s: Sys, p: Page, w: bool)
    requires InFrame(s.pt, p)
    ensures MapPage(s, p, w).puts == s.puts && MapPage(s, p, w).file == s.file
  {
  }

  lemma TouchNew(s: Sys, p: Page, w: bool, id: Id)
    requires Fault(s, p, w, id).Some?
    ensures OnlyNew(s, Fault(s, p, w, id).value)
  {
    hide SwapOut, UseFrame;
    if !InFrame(s.pt, p) {
      SwapOutNew(s, p.tid);
      match AllocFrame(s, p.tid)
      case Pending(g) =>
      case Complete(g) => UseFramePuts(g, p, w, id);
    }
  }

  lemma AckNew(s: Sys, r: Request)
    requires PutAck(s, r).Some?
    ensures OnlyNew(s, PutAck(s, r).value)
  {
    hide FinishPut;
    var c := CountAck(s, r);
    if PutAck(s, r) != Some(c) {
      FinishPuts(c, r.id);
    }
  }

  lemma FinishPuts(s: Sys, id: Id)
    requires id in s.items
    requires !s.items[id].deleted ==>
      s.items[id].slot.Some? && s.items[id].page in s.pt && s.pt[s.items[id].page].Resident?
    ensures FinishPut(s, id).puts == s.puts && FinishPut(s, id).file == s.file
  {
    hide DropSwapping, RetirePage, Wake, Without1;
    DropKeepsPuts(s, id);
    DropKeepsPuts(s.(blocked := Wake(s.blocked, s.items[id].initiator)), id);
    if !s.items[id].deleted {
      RetireKeepsPuts(s, id);
      DropKeepsPuts(RetirePage(s, id), id);
    }
  }

  lemma DropKeepsPuts(s: Sys, id: Id)
    ensures DropSwapping(s, id).puts == s.puts && DropSwapping(s, id).file == s.file
  {
  }

  lemma RetireKeepsPuts(s: Sys, id: Id)
    requires id in s.items && s.items[id].slot.Some? && InFrame(s.pt, s.items[id].page)
    ensures RetirePage(s, id).puts == s.puts && RetirePage(s, id).file == s.file
  {
  }

  lemma OtherNew(s: Sys, step: Step)
    requires Enabled(s, step) && Apply(s, step).Some? && !step.Touch? && !step.WriteAcked? && !step.ServerWrites?
    ensures OnlyNew(s, Apply(s, step).value)
  {
    hide FreeRange, UnmapRange, StoreByte, Without1, LoadChunk, EntryFound;
    match step
    case Kill(t) => FreedNew(s, t);
    case Exec(t) => FreedNew(s, t);
    case Store(p, off, b) => StoredNew(s, s.hw[p].frame, off, b);
    case IpcStore(t, off, b) => StoredNew(s, s.pt[Page(t, IPC_VPN)].frame, off, b);
    case _ =>
  }

  lemma FreedNew(s: Sys, t: Tid)
    ensures OnlyNew(s, Delete(s, t)) && OnlyNew(s, Start(s, t))
  {
    hide FreeFrames, Cleared, Without;
  }

  lemma StoredNew(s: Sys, f: Frame, off: nat, b: Byte)
    requires f in s.mem && off < PAGESIZE
    ensures OnlyNew(s, StoreByte(s, f, off, b))
  {
  }

  lemma StepExecuted(s: Sys, step: Step)
    requires Inv(s) && Executed(s.puts, s.file) && Enabled(s, step) && Apply(s, step).Some?
    ensures Executed(Apply(s, step).value.puts, Apply(s, step).value.file)
  {
    hide Inv, Fault, PutAck;
    match step
    case ServerWrites(r) => ServeExecuted(s, r);
    case Touch(p, w, id) => TouchNew(s, p, w, id);
    case WriteAcked(r) => AckNew(s, r);
    case _ => OtherNew(s, step);
  }

  /** In every reachable state what was carried out is in the swap file. */
  lemma {:induction false} RunExecuted(s: Sys, run: seq<Step>)
    requires Init(s) && After(s, run).Some?
    ensures Executed(After(s, run).value.puts, After(s, run).value.file)
  {
    if run != [] {
      hide Inv, Shows, Init, Apply, Enabled, Safe, Executed;
      RunExecuted(s, run[..|run| - 1]);
      RunRefines(s, run[..|run| - 1]);
      StepExecuted(After(s, run[..|run| - 1]).value, run[|run| - 1]);
    }
  }

  // ------------------------------------------- a page goes out as it was sent

  /** Item `id` is on its way out: chunks are outstanding, its page is resident and not mapped. */
  ghost predicate Drains(s: Sys, id: Id) {
    && EntryFound(s, id) && !s.items[id].deleted && s.items[id].page !in s.hw && s.items[id].slot.value in s.file
    && (forall k: nat :: k < CHUNKS && Request(id, k) in s.puts ==>
         s.puts[Request(id, k)].slot == s.items[id].slot.value)
    && Outstanding(s.puts, id) != {} && s.items[id].toSwap == BATCH_SIZE * |Outstanding(s.puts, id)|
  }

  /** Chunk `k` as the slot will hold it: what the pending request carries, or what is there. */
  function FinalChunk(puts: map<Request, WriteOp>, id: Id, onFile: Bytes, k: nat): Chunk
    requires k < CHUNKS
  {
    if Request(id, k) in puts then puts[Request(id, k)].data else onFile[k]
  }

  /** `b` is what slot `x` will hold once all requests of item `id` are carried out. */
  ghost predicate Ends(s: Sys, id: Id, b: Bytes) {
    && id in s.items && s.items[id].slot.Some? && s.items[id].slot.value in s.file
    && forall k: nat :: k < CHUNKS ==> b[k] == FinalChunk(s.puts, id, s.file[s.items[id].slot.value], k)
  }

  lemma ServeDrains(s: Sys, id: Id, k: nat, b: Bytes)
    requires Drains(s, id) && Ends(s, id, b) && k in Outstanding(s.puts, id)
    ensures Request(id, k) in s.puts && k < CHUNKS && s.puts[Request(id, k)].slot in s.file
    ensures var t := ServePut(s, Request(id, k));
      && Drains(t, id) && Ends(t, id, b) && Outstanding(t.puts, id) == Outstanding(s.puts, id)
      && t.puts[Request(id, k)].done && t.file[s.items[id].slot.value][k] == b[k]
      && t == s.(file := t.file, puts := t.puts)
  {
    var r := Request(id, k);
    var t := ServePut(s, r);
    assert Outstanding(t.puts, id) == Outstanding(s.puts, id);
  }

  lemma AckDrains(s: Sys, id: Id, k: nat, b: Bytes)
    requires Drains(s, id) && Ends(s, id, b) && k in Outstanding(s.puts, id) && Outstanding(s.puts, id) != {k}
    requires s.file[s.items[id].slot.value][k] == b[k]
    ensures var r := Request(id, k); var c := CountAck(s, r);
      PutAck(s, r) == Some(c) && Drains(c, id) && Ends(c, id, b) &&
        Outstanding(c.puts, id) == Outstanding(s.puts, id) - {k}
      && c == s.(puts := c.puts, items := c.items)
      && c.items[id] == s.items[id].(toSwap := c.items[id].toSwap)
  {
    var r := Request(id, k);
    var c := CountAck(s, r);
    var o := Outstanding(s.puts, id);
    assert Outstanding(c.puts, id) == o - {k};
    assert |o - {k}| == |o| - 1;
    assert o == (o - {k}) + {k} && {} + {k} == {k};
    assert o - {k} != {};
    hide FinishPut, Outstanding;
  }

  /** The page of item `id` has gone out, and its slot holds `b`. */
  ghost predicate Gone(s: Sys, t: Sys, id: Id, b: Bytes) {
    && id in s.items && s.items[id].slot.Some?
    && var p, x := s.items[id].page, s.items[id].slot.value;
       && p in t.pt && t.pt[p] == Swapped(x) && x in t.file && t.file[x] == b
       && t.free != [] && t.procs == s.procs
       && (forall u :: u in t.blocked ==> u in s.blocked && s.items[id].initiator != Some(u))
  }

  lemma LastDrains(s: Sys, id: Id, k: nat, b: Bytes)
    requires Drains(s, id) && Ends(s, id, b) && Outstanding(s.puts, id) == {k}
    requires s.file[s.items[id].slot.value][k] == b[k]
    ensures PutAck(s, Request(id, k)).Some? && Gone(s, PutAck(s, Request(id, k)).value, id, b)
  {
    var r, x := Request(id, k), s.items[id].slot.value;
    var c := CountAck(s, r);
    assert |{k}| == 1;
    assert c.items[id].toSwap == 0;
    forall j: nat | j < CHUNKS
      ensures s.file[x][j] == b[j]
    {
      if j != k {
        assert j !in Outstanding(s.puts, id);
        assert Request(id, j) !in s.puts;
      }
    }
    assert s.file[x] == b;
    hide Without1, Outstanding;
  }

  /** Carrying out and acknowledging all requests takes the page out with exactly those bytes. */
  lemma {:induction false} DrainAll(s: Sys, id: Id, b: Bytes) returns (run: seq<Step>, t: Sys)
    requires Drains(s, id) && Ends(s, id, b)
    ensures Quiet(run) && After(s, run) == Some(t) && Gone(s, t, id, b)
    decreases |Outstanding(s.puts, id)|
  {
    hide Fault, FinishPut, After;
    var o := Outstanding(s.puts, id);
    var k :| k in o;
    var r := Request(id, k);
    var s1 := ServePut(s, r);
    ServeDrains(s, id, k, b);
    assert Enabled(s, ServerWrites(r)) && Enabled(s1, WriteAcked(r));
    if o == {k} {
      LastDrains(s1, id, k, b);
      t := PutAck(s1, r).value;
      hide Drains, Ends, Outstanding, ServePut, PutAck, Enabled;
      QuietStep(s1, WriteAcked(r), t);
      run := [ServerWrites(r)] + [WriteAcked(r)];
      QuietThen(s, ServerWrites(r), s1, [WriteAcked(r)]);
    } else {
      AckDrains(s1, id, k, b);
      var c := CountAck(s1, r);
      assert |o - {k}| == |o| - 1;
      var rest;
      rest, t := DrainAll(c, id, b);
      hide Drains, Ends, Outstanding, ServePut, PutAck, Enabled;
      QuietThen(s1, WriteAcked(r), c, rest);
      run := [ServerWrites(r)] + ([WriteAcked(r)] + rest);
      QuietThen(s, ServerWrites(r), s1, [WriteAcked(r)] + rest);
    }
  }

  // ------------------------------------------------- a page is read back

  /** Page `p` is being read back from slot `x` as item `id`: chunks before `k` are in its frame. */
  ghost predicate Fetching(s: Sys, p: Page, x: Slot, id: Id, k: nat) {
    && k < CHUNKS && p.tid in s.procs && x in s.file
    && id in s.items && s.items[id] == Item(p, Some(x), BATCH_SIZE * k, None, false)
    && id in s.gets && s.gets[id] == ReadOp(x, k, None)
    && InFrame(s.pt, p) && s.pt[p].frame in s.mem
    && forall j: nat :: j < k ==> s.mem[s.pt[p].frame][j] == s.file[x][j]
  }

  /** Page `p` is back: its frame holds what slot `x` holds. */
  ghost predicate Back(s: Sys, p: Page, b: Bytes) {
    InFrame(s.pt, p) && s.pt[p].frame in s.mem && s.mem[s.pt[p].frame] == b && Runs(s, p.tid)
  }

  lemma FetchStep(s: Sys, p: Page, x: Slot, id: Id, k: nat)
    requires Fetching(s, p, x, id, k)
    ensures Enabled(s, ServerReads(id)) && Enabled(ServeGet(s, id), ReadAnswered(id))
    ensures var t := GetAck(ServeGet(s, id), id, s.file[x][k]);
      && Apply(ServeGet(s, id), ReadAnswered(id)) == t && t.Some? && t.value.file == s.file
      && (k + 1 < CHUNKS ==> Fetching(t.value, p, x, id, k + 1))
      && (k + 1 == CHUNKS ==> Back(t.value, p, s.file[x]))
  {
    hide Without1;
    var u := ServeGet(s, id);
    var t := GetAck(u, id, s.file[x][k]);
    assert EntryFound(u, id) && u.items[id].toSwap / BATCH_SIZE == k;
    var f := s.pt[p].frame;
    assert t.value.mem[f] == s.mem[f][k := s.file[x][k]];
    if k + 1 == CHUNKS {
      assert t.value.mem[f] == s.file[x];
    }
  }

  lemma {:induction false} FetchAll(s: Sys, p: Page, x: Slot, id: Id, k: nat) returns (run: seq<Step>, t: Sys)
    requires Fetching(s, p, x, id, k)
    ensures Quiet(run) && After(s, run) == Some(t) && Back(t, p, s.file[x])
    decreases CHUNKS - k
  {
    FetchStep(s, p, x, id, k);
    var u := ServeGet(s, id);
    var v := GetAck(u, id, s.file[x][k]).value;
    assert k < CHUNKS;
    assert Apply(s, ServerReads(id)) == Some(u);
    if k + 1 < CHUNKS {
      var rest;
      rest, t := FetchAll(v, p, x, id, k + 1);
      hide Fetching, Back, ServeGet, GetAck, Enabled, Apply, After;
      QuietThen(u, ReadAnswered(id), v, rest);
      run := [ServerReads(id)] + ([ReadAnswered(id)] + rest);
      QuietThen(s, ServerReads(id), u, [ReadAnswered(id)] + rest);
    } else {
      t := v;
      hide Fetching, Back, ServeGet, GetAck, Enabled, Apply, After;
      QuietStep(u, ReadAnswered(id), v);
      run := [ServerReads(id)] + [ReadAnswered(id)];
      QuietThen(s, ServerReads(id), u, [ReadAnswered(id)]);
    }
  }

  lemma FreshId(ids: set<Id>) returns (id: Id)
    ensures id !in ids
  {
    id := Above(ids);
  }

  /** A number greater than every member. */
  lemma {:induction false} Above(ids: set<Id>) returns (b: nat)
    ensures forall i :: i in ids ==> i < b
  {
    if ids == {} {
      b := 0;
    } else {
      var i :| i in ids;
      var c := Above(ids - {i});
      assert forall j :: j in ids ==> j == i || j in ids - {i};
      b := if c > i then c else i + 1;
    }
  }

  /** Page `p` is mapped and its running process reads the bytes `b`. */
  ghost predicate Displays(s: Sys, p: Page, b: Bytes) {
    forall off: nat :: off < PAGESIZE ==> Enabled(s, Load(p, off)) && Seen(s, p, off) == Some(ByteAt(b, off))
  }

  /** A swapped page of a running process can be read back and mapped; it shows what its slot holds. */
  lemma ReadBack(s: Sys, p: Page, x: Slot) returns (run: seq<Step>, t: Sys)
    requires p in s.pt && s.pt[p] == Swapped(x) && x in s.file && s.free != [] && Runs(s, p.tid) &&
      p.vpn <= STACK_TOP_VPN
    ensures Quiet(run) && After(s, run) == Some(t)
    ensures Displays(t, p, s.file[x])
  {
    var id := FreshId(s.items.Keys);
    var u := BeginSwapIn(s, p, id);
    hide BeginSwapIn, Fault, Fetching, Back, After, Displays, MapPage;
    var rest, v := FetchAll(u, p, x, id, 0);
    var id' := FreshId(v.items.Keys);
    t := MapPage(v, p, false);
    MapDisplays(v, p, s.file[x], id');
    QuietStep(v, Touch(p, false, id'), t);
    AfterCat(u, rest, [Touch(p, false, id')]);
    run := [Touch(p, false, id)] + (rest + [Touch(p, false, id')]);
    QuietThen(s, Touch(p, false, id), u, rest + [Touch(p, false, id')]);
  }

  lemma MapDisplays(s: Sys, p: Page, b: Bytes, id: Id)
    requires Back(s, p, b) && p.vpn <= STACK_TOP_VPN && id !in s.items
    ensures InFrame(s.pt, p) && Enabled(s, Touch(p, false, id)) &&
      Apply(s, Touch(p, false, id)) == Some(MapPage(s, p, false))
    ensures Displays(MapPage(s, p, false), p, b)
  {
    hide ByteAt;
  }

  // ----------------------------------------------- what start_process loses

  /** The bytes the slot of item `id` ends up with when all its requests are carried out. */
  lemma FinalBytes(s: Sys, id: Id) returns (b: Bytes)
    requires id in s.items && s.items[id].slot.Some? && s.items[id].slot.value in s.file
    ensures Ends(s, id, b)
  {
    var x := s.items[id].slot.value;
    var c: seq<Chunk> := seq(CHUNKS, k requires 0 <= k < CHUNKS => FinalChunk(s.puts, id, s.file[x], k));
    b := c;
  }

  /** A page of which something else was sent than its frame holds ends up different. */
  lemma UnsentDiffers(s: Sys, id: Id, f: Frame, b: Bytes)
    requires Executed(s.puts, s.file) && Ends(s, id, b) && f in s.mem
    requires forall k: nat :: k < CHUNKS && Request(id, k) in s.puts ==>
      s.puts[Request(id, k)].slot == s.items[id].slot.value
    requires !Sent(s.puts, s.file, s.mem, id, s.items[id].slot, f)
    ensures b != s.mem[f]
  {
    var x := s.items[id].slot.value;
    var k: nat :| k < CHUNKS && !ChunkSent(s.puts, id, s.file[x], s.mem[f], k);
    assert b[k] == FinalChunk(s.puts, id, s.file[x], k);
    assert b[k] != s.mem[f][k];
  }

  lemma DifferentByte(a: Bytes, b: Bytes) returns (off: nat)
    requires a != b
    ensures off < PAGESIZE && ByteAt(a, off) != ByteAt(b, off)
  {
    var k :| 0 <= k < CHUNKS && a[k] != b[k];
    var i :| 0 <= i < BATCH_SIZE && a[k][i] != b[k][i];
    off := k * BATCH_SIZE + i;
    assert off / BATCH_SIZE == k && off % BATCH_SIZE == i;
  }

  /** What is in flight for a page on its way out. */
  lemma LeavingInFlight(s: Sys, id: Id)
    requires Inv(s) && Leaving(s, id)
    ensures EntryFound(s, id) && s.items[id].slot.value in s.file
    ensures forall k: nat :: k < CHUNKS && Request(id, k) in s.puts ==>
      s.puts[Request(id, k)].slot == s.items[id].slot.value
    ensures Outstanding(s.puts, id) != {} && s.items[id].toSwap == BATCH_SIZE * |Outstanding(s.puts, id)|
  {
    hide FramesOk, MappingsOk, GetsOk, DirtyOk, CleanOk, LeavingOk, ArrivingOk, WaitersOk, QueuesOk, Outstanding;
    assert InFrame(s.pt, s.items[id].page);
    LeavingFrame(s, id);
    assert OwnsSlot(s.items, id, s.items[id].slot.value);
  }

  /** What is in flight for a page of the loader before start_process. */
  lemma LeavingFacts(s: Sys, t: Tid, id: Id)
    requires Inv(s) && LoaderPageLeaving(s, t, id)
    ensures EntryFound(s, id) && s.items[id].slot.value in s.file && s.items[id].page.vpn < STACK_TOP_VPN &&
      s.items[id].page.tid == t
    ensures forall k: nat :: k < CHUNKS && Request(id, k) in s.puts ==>
      s.puts[Request(id, k)].slot == s.items[id].slot.value
    ensures Outstanding(s.puts, id) != {} && s.items[id].toSwap == BATCH_SIZE * |Outstanding(s.puts, id)|
    ensures Settled(s, s.items[id].page)
  {
    LeavingInFlight(s, id);
    hide FramesOk, MappingsOk, SlotsOk, StoresOk, PutsOk, GetsOk, DirtyOk, CleanOk, LeavingOk, ArrivingOk, WaitersOk,
      QueuesOk, Outstanding;
  }

  lemma LeavingFrame(s: Sys, id: Id)
    requires Inv(s) && Leaving(s, id) && InFrame(s.pt, s.items[id].page)
    ensures s.pt[s.items[id].page].frame in s.mem
  {
    hide QueuesOk, TablesOk, MappingsOk, SlotsOk, PutsOk, GetsOk, DirtyOk, CleanOk, LeavingOk, ArrivingOk, WaitersOk;
    assert ResidentAt(s.pt, s.items[id].page, s.pt[s.items[id].page].frame);
  }

  /** After start_process the page is on its way out, unmapped, with the same requests in flight. */
  lemma StartDrains(s: Sys, t: Tid, id: Id, b: Bytes)
    requires Inv(s) && LoaderPageLeaving(s, t, id) && Ends(s, id, b) && Runs(s, t)
    ensures var u := Start(s, t);
      && Drains(u, id) && Ends(u, id, b) && Runs(u, t)
      && u.items[id].page == s.items[id].page && u.items[id].slot == s.items[id].slot
  {
    hide Inv, Start, LoaderPageLeaving, Outstanding;
    LeavingFacts(s, t, id);
    StartStrands(s, t, id);
    StartKeeps(s, t, id);
  }

  /** What start_process leaves alone. */
  lemma StartKeeps(s: Sys, t: Tid, id: Id)
    ensures var u := Start(s, t);
      && u.puts == s.puts && u.file == s.file && u.mem == s.mem && u.procs == s.procs && u.blocked == s.blocked
      && (id in s.items && id in u.items ==> u.items[id].toSwap == s.items[id].toSwap)
  {
    hide FreeFrames, Cleared, Without;
  }

  /**
   A page of the loader that changed after its writes were issued: when start_process has
   unmapped it, the old contents go out, come back and are read.
   */
  lemma StaleRead(s: Sys, t: Tid, id: Id, b: Bytes) returns (run: seq<Step>, r: Sys)
    requires Inv(s) && LoaderPageLeaving(s, t, id) && Ends(s, id, b) && Runs(s, t)
    ensures Quiet(run) && After(Start(s, t), run) == Some(r)
    ensures Displays(r, s.items[id].page, b)
  {
    hide Inv, Start, After, Displays, Ends, Drains;
    StartDrains(s, t, id, b);
    LeavingFacts(s, t, id);
    var u := Start(s, t);
    var out, v := DrainAll(u, id, b);
    var back, w := ReadBack(v, s.items[id].page, s.items[id].slot.value);
    AfterCat(u, out, back);
    run, r := out + back, w;
  }

  /** The read of byte `off` of page `p` after `run`, if it is possible, gives the byte of the flat memory. */
  ghost predicate ReadsRight(u: Sys, m: Flat, run: seq<Step>, p: Page, off: nat) {
    After(u, run).Some? && Enabled(After(u, run).value, Load(p, off)) ==>
      Seen(After(u, run).value, p, off) == Some(ByteAt(FlatAt(FlatFrom(m, run), p), off))
  }

  /** From a state in the invariant that presents the flat memory every read is right. */
  lemma ReadsFlat(u: Sys, m: Flat, run: seq<Step>, p: Page, off: nat)
    requires Inv(u) && Shows(u, m)
    ensures ReadsRight(u, m, run, p, off)
  {
    hide Inv, Shows, After, Seen, Enabled;
    if After(u, run).Some? && Enabled(After(u, run).value, Load(p, off)) {
      RunRefinesFrom(u, m, run);
      LoadEnabled(After(u, run).value, p, off);
      SeenIsFlat(After(u, run).value, FlatFrom(m, run), p, off);
    }
  }

  /** When start_process is not safe, some continuation reads a wrong byte. */
  lemma StartLoses(s: Sys, t: Tid, m: Flat) returns (run: seq<Step>, p: Page, off: nat)
    requires Inv(s) && Shows(s, m) && Executed(s.puts, s.file) && Runs(s, t) && !StartSafe(s, t)
    ensures !ReadsRight(Start(s, t), FlatStep(m, Exec(t)), run, p, off)
  {
    var id :| LoaderPageLeaving(s, t, id)
      && !Sent(s.puts, s.file, s.mem, id, s.items[id].slot, s.pt[s.items[id].page].frame);
    hide Inv, Shows, StartSafe, Start, FlatStep, Sent, LoaderPageLeaving, After, Displays, ReadsRight;
    LeavingFacts(s, t, id);
    p := s.items[id].page;
    var f, n := s.pt[p].frame, FlatStep(m, Exec(t));
    LoaderFlat(s, t, id, m);
    var b := FinalBytes(s, id);
    UnsentDiffers(s, id, f, b);
    off := DifferentByte(b, s.mem[f]);
    var r;
    run, r := StaleRead(s, t, id, b);
    WrongRead(Start(s, t), n, run, r, p, off, b);
  }

  /** What the loader last wrote to the page is in its frame, and start_process does not change it. */
  lemma LoaderFlat(s: Sys, t: Tid, id: Id, m: Flat)
    requires Inv(s) && Shows(s, m) && LoaderPageLeaving(s, t, id)
    ensures s.pt[s.items[id].page].frame in s.mem &&
      FlatAt(FlatStep(m, Exec(t)), s.items[id].page) == s.mem[s.pt[s.items[id].page].frame]
  {
    LeavingFacts(s, t, id);
    FreedFlat(m, t, HEAP_START_VPN, HEAP_END_VPN);
    hide Inv, Zero, Settled;
  }

  lemma WrongRead(u: Sys, n: Flat, run: seq<Step>, r: Sys, p: Page, off: nat, b: Bytes)
    requires Quiet(run) && After(u, run) == Some(r) && Displays(r, p, b) && off < PAGESIZE &&
      ByteAt(b, off) != ByteAt(FlatAt(n, p), off)
    ensures !ReadsRight(u, n, run, p, off)
  {
    hide After;
    QuietFlat(n, run);
  }

  /**
   start_process is safe exactly if after it every read in every continuation gives the byte of
   the flat memory, the loader's heap having been cleared.
   */
  lemma StartReadsExact(s: Sys, t: Tid, m: Flat)
    requires Inv(s) && Shows(s, m) && Executed(s.puts, s.file) && Runs(s, t)
    ensures StartSafe(s, t) <==> forall run, p, off :: ReadsRight(Start(s, t), FlatStep(m, Exec(t)), run, p, off)
  {
    hide Inv, Shows, Start, StartSafe, FlatStep, After, Seen, Enabled;
    if StartSafe(s, t) {
      var u, n := Start(s, t), FlatStep(m, Exec(t));
      ExecRefines(s, t, m);
      forall run, p, off
        ensures ReadsRight(u, n, run, p, off)
      {
        ReadsFlat(u, n, run, p, off);
      }
    } else {
      var run, p, off := StartLoses(s, t, m);
      assert !ReadsRight(Start(s, t), FlatStep(m, Exec(t)), run, p, off);
    }
  }

  /** The same for every reachable state, with the memory its run has written. */
  lemma StartReadsReachable(s: Sys, run: seq<Step>, t: Tid)
    requires Init(s) && After(s, run).Some? && Runs(After(s, run).value, t)
    ensures var r := After(s, run).value;
      StartSafe(r, t) <==> forall more, p, off ::
        ReadsRight(Start(r, t), FlatStep(FlatAfter(run), Exec(t)), more, p, off)
  {
    hide Inv, Shows, Init, After, Start, StartSafe, FlatStep, Executed, ReadsRight, Runs;
    RunRefines(s, run);
    RunExecuted(s, run);
    StartReadsExact(After(s, run).value, t, FlatAfter(run));
  }

  lemma ExecRefines(s: Sys, t: Tid, m: Flat)
    requires Inv(s) && Shows(s, m) && StartSafe(s, t)
    ensures Inv(Start(s, t)) && Shows(Start(s, t), FlatStep(m, Exec(t)))
  {
    hide Inv, Shows, Start, StartSafe;
    StartInv(s, t);
    StartShows(s, t, m);
  }

  lemma LoadEnabled(s: Sys, p: Page, off: nat)
    requires Enabled(s, Load(p, off))
    ensures p in s.hw && p.tid !in s.blocked && off < PAGESIZE
  {
  }

  // -------------------------------------------------- a guard one can look at

  /** A page of the loader is on its way out and mapped writable. */
  ghost predicate WritableLoader(s: Sys, t: Tid, id: Id) {
    LoaderPageLeaving(s, t, id) && s.items[id].page in s.hw && s.hw[s.items[id].page].writable
  }

  ghost predicate NoWritableLoader(s: Sys, t: Tid) {
    forall id :: !WritableLoader(s, t, id)
  }

  predicate AllStores(run: seq<Step>) {
    forall i :: 0 <= i < |run| ==> run[i].Store?
  }

  ghost predicate SafeAfter(s: Sys, run: seq<Step>, t: Tid) {
    After(s, run).Some? ==> StartSafe(After(s, run).value, t)
  }

  /** What a store through a mapping is. */
  lemma StoreIs(s: Sys, p: Page, off: nat, b: Byte)
    requires Inv(s) && Enabled(s, Store(p, off, b))
    ensures InFrame(s.pt, p) && s.pt[p].frame in s.mem &&
      Apply(s, Store(p, off, b)) == Some(StoreByte(s, s.pt[p].frame, off, b))
    ensures Inv(StoreByte(s, s.pt[p].frame, off, b)) && s.hw[p].writable
  {
    hide Inv, Writable, StoreByte, Settled, InFrame;
    MappedPage(s, p);
    StoreInv(s, p, off, b);
  }

  lemma OtherFrame(s: Sys, p: Page, q: Page)
    requires Inv(s) && InFrame(s.pt, p) && InFrame(s.pt, q) && p != q
    ensures s.pt[p].frame != s.pt[q].frame
  {
    hide QueuesOk, TablesOk, MappingsOk, SlotsOk, StoresOk, PutsOk, GetsOk, DirtyOk, CleanOk, LeavingOk,
      ArrivingOk, WaitersOk;
    assert ResidentAt(s.pt, p, s.pt[p].frame) && ResidentAt(s.pt, q, s.pt[q].frame);
  }

  /** Stores do not reach pages that are not mapped writable. */
  lemma StoreKeepsSafe(s: Sys, p: Page, off: nat, b: Byte, t: Tid)
    requires Inv(s) && InFrame(s.pt, p) && s.pt[p].frame in s.mem && off < PAGESIZE && p in s.hw && s.hw[p].writable
    requires StartSafe(s, t) && NoWritableLoader(s, t)
    ensures var r := StoreByte(s, s.pt[p].frame, off, b); StartSafe(r, t) && NoWritableLoader(r, t)
  {
    var r := StoreByte(s, s.pt[p].frame, off, b);
    hide Inv, Sent, SetByte;
    forall id
      ensures LoaderPageLeaving(r, t, id) <==> LoaderPageLeaving(s, t, id)
      ensures WritableLoader(r, t, id) <==> WritableLoader(s, t, id)
      ensures LoaderPageLeaving(s, t, id) ==>
        Sent(r.puts, r.file, r.mem, id, r.items[id].slot, r.pt[r.items[id].page].frame)
    {
      if LoaderPageLeaving(s, t, id) {
        assert !WritableLoader(s, t, id);
        var q := s.items[id].page;
        OtherFrame(s, p, q);
      }
    }
  }

  lemma {:induction false} StoresKeepSafe(s: Sys, run: seq<Step>, t: Tid)
    requires Inv(s) && StartSafe(s, t) && NoWritableLoader(s, t) && AllStores(run) && After(s, run).Some?
    ensures var r := After(s, run).value; Inv(r) && StartSafe(r, t) && NoWritableLoader(r, t)
  {
    hide Inv, StartSafe, NoWritableLoader, Apply, Enabled, Safe;
    if run != [] {
      var less, step := run[..|run| - 1], run[|run| - 1];
      StoresKeepSafe(s, less, t);
      var r := After(s, less).value;
      assert step == Store(step.page, step.off, step.byte);
      StoreOff(r, step.page, step.off, step.byte);
      StoreIs(r, step.page, step.off, step.byte);
      StoreKeepsSafe(r, step.page, step.off, step.byte, t);
    }
  }

  lemma StoreOff(s: Sys, p: Page, off: nat, b: Byte)
    requires Enabled(s, Store(p, off, b))
    ensures off < PAGESIZE && p in s.hw
  {
  }

  /** One store to a page mapped writable can make start_process unsafe. */
  lemma StoreBreaks(s: Sys, t: Tid, id: Id) returns (b: Byte)
    requires Inv(s) && Runs(s, t) && WritableLoader(s, t, id)
    ensures Enabled(s, Store(s.items[id].page, 0, b)) && Apply(s, Store(s.items[id].page, 0, b)).Some?
    ensures !StartSafe(Apply(s, Store(s.items[id].page, 0, b)).value, t)
  {
    hide Inv, Sent, StoreByte;
    LeavingFacts(s, t, id);
    var p, x := s.items[id].page, s.items[id].slot.value;
    var r := Request(id, 0);
    var sent := if r in s.puts then s.puts[r].data else s.file[x][0];
    b := if sent[0] == 0 then 1 else 0;
    assert Enabled(s, Store(p, 0, b));
    StoreIs(s, p, 0, b);
    StoreUnsends(s, t, id, b);
  }

  lemma StoreUnsends(s: Sys, t: Tid, id: Id, b: Byte)
    requires LoaderPageLeaving(s, t, id) && EntryFound(s, id) && s.items[id].slot.value in s.file
    requires var r := Request(id, 0); b != if r in s.puts then s.puts[r].data[0]
      else s.file[s.items[id].slot.value][0][0]
    ensures !StartSafe(StoreByte(s, s.pt[s.items[id].page].frame, 0, b), t)
  {
    var p, x := s.items[id].page, s.items[id].slot.value;
    var f := s.pt[p].frame;
    var u := StoreByte(s, f, 0, b);
    assert LoaderPageLeaving(u, t, id);
    assert u.mem[f][0][0] == b;
    assert !ChunkSent(u.puts, id, u.file[x], u.mem[f], 0);
    assert !Sent(u.puts, u.file, u.mem, id, u.items[id].slot, f);
  }

  /**
   start_process is safe whatever running processes may yet store through their mappings exactly
   if it is safe now and no page of the loader that is on its way out is mapped writable.
   */
  lemma GuardExact(s: Sys, t: Tid)
    requires Inv(s) && Runs(s, t)
    ensures (forall run :: AllStores(run) ==> SafeAfter(s, run, t)) <==> StartSafe(s, t) && NoWritableLoader(s, t)
  {
    hide Inv, StartSafe, Apply, Enabled;
    if StartSafe(s, t) && NoWritableLoader(s, t) {
      forall run | AllStores(run)
        ensures SafeAfter(s, run, t)
      {
        if After(s, run).Some? {
          hide NoWritableLoader;
          StoresKeepSafe(s, run, t);
        }
      }
    } else if !StartSafe(s, t) {
      assert AllStores([]) && After(s, []) == Some(s);
      assert !SafeAfter(s, [], t);
    } else {
      var id :| WritableLoader(s, t, id);
      var b := StoreBreaks(s, t, id);
      var step := Store(s.items[id].page, 0, b);
      assert [step][..0] == [] && After(s, []) == Some(s) && Safe(s, step);
      assert After(s, [step]) == Apply(s, step);
      assert AllStores([step]) && !SafeAfter(s, [step], t);
    }
  }
}
