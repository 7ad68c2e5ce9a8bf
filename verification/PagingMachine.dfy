/**
 The server as a step machine, and its main theorem: over every run of page
 faults, evictions, abandoned swap-outs, chunk acknowledgements in any order,
 process starts and deletions, each process sees a flat memory of its own.
 */
module PagingMachine {
  import opened Seqs
  import opened PagingState
  import opened PagingOps
  import opened PagingFault
  import opened PagingPut
  import opened PagingGet
  import opened PagingDelete

  datatype Step =
    | Birth(tid: Tid)                             // register_process
    | Kill(tid: Tid)                              // delete_process
    | Exec(tid: Tid)                              // start_process
    | Touch(page: Page, write: bool, id: Id)      // page fault; `id` is the item malloc would return
    | Load(page: Page, off: nat)                  // user read through the mapping
    | Store(page: Page, off: nat, byte: Byte)     // user write through the mapping
    | IpcStore(tid: Tid, off: nat, byte: Byte)    // the server fills the shared IPC page
    | ServerWrites(req: Request)                  // the NFS server carries out a write, perhaps again
    | WriteAcked(req: Request)                    // swap_write_callback
    | ServerReads(id: Id)                         // the NFS server answers a read
    | ReadAnswered(id: Id)                        // swap_read_callback

  predicate Runs(s: Sys, t: Tid) { t in s.procs && t !in s.blocked }

  /** What the hardware, the kernel and the NFS library allow to happen next. */
  predicate Enabled(s: Sys, step: Step) {
    match step
    case Birth(t) => t !in s.procs
    case Kill(t) => t in s.procs
    case Exec(t) => Runs(s, t)
    case Touch(p, w, id) => Runs(s, p.tid) && p.vpn <= STACK_TOP_VPN && id !in s.items
    case Load(p, off) => Runs(s, p.tid) && p in s.hw && off < PAGESIZE
    case Store(p, off, b) => Runs(s, p.tid) && p in s.hw && s.hw[p].writable && off < PAGESIZE
    case IpcStore(t, off, b) => t in s.procs && InFrame(s.pt, Page(t, IPC_VPN)) && off < PAGESIZE
    case ServerWrites(r) => r in s.puts && r.chunk < CHUNKS && s.puts[r].slot in s.file
    case WriteAcked(r) => r in s.puts && s.puts[r].done
    case ServerReads(id) => id in s.gets && s.gets[id].slot in s.file && s.gets[id].chunk < CHUNKS
    case ReadAnswered(id) => id in s.gets && s.gets[id].reply.Some?
  }

  /** The two operations that are correct only under a condition, and their exact conditions. */
  ghost predicate Safe(s: Sys, step: Step) {
    && (step.Kill? ==> DeleteSafe(s, step.tid))
    && (step.Exec? ==> StartSafe(s, step.tid))
  }

  /** The next state; None if the server stops in an assertion or the kernel debugger. */
  function Apply(s: Sys, step: Step): Option<Sys>
    requires Enabled(s, step)
  {
    match step
    case Birth(t) => Some(Create(s, t))
    case Kill(t) => Some(Delete(s, t))
    case Exec(t) => Some(Start(s, t))
    case Touch(p, w, id) => Fault(s, p, w, id)
    case Load(p, off) => Some(s)
    case Store(p, off, b) => StoreAt(s, s.hw[p].frame, off, b)
    case IpcStore(t, off, b) => StoreAt(s, s.pt[Page(t, IPC_VPN)].frame, off, b)
    case ServerWrites(r) => Some(ServePut(s, r))
    case WriteAcked(r) => PutAck(s, r)
    case ServerReads(id) => Some(ServeGet(s, id))
    case ReadAnswered(id) => GetAck(s, id, s.gets[id].reply.value)
  }

  function StoreAt(s: Sys, f: Frame, off: nat, b: Byte): Option<Sys>
    requires off < PAGESIZE
  {
    if f in s.mem then Some(StoreByte(s, f, off, b)) else None
  }

  /** The byte a user read delivers: whatever is in the frame the hardware mapping shows. */
  function Seen(s: Sys, p: Page, off: nat): Option<Byte>
    requires p in s.hw && off < PAGESIZE
  {
    if s.hw[p].frame in s.mem then Some(ByteAt(s.mem[s.hw[p].frame], off)) else None
  }

  // --------------------------------------------------- the flat memory

  function FlatStep(m: Flat, step: Step): Flat {
    match step
    case Kill(t) => FlatWithout(m, t, 0, ALL_PAGES)
    case Exec(t) => FlatWithout(m, t, HEAP_START_VPN, HEAP_END_VPN)
    case Store(p, off, b) => if off < PAGESIZE then m[p := SetByte(FlatAt(m, p), off, b)] else m
    case IpcStore(t, off, b) =>
      if off < PAGESIZE then m[Page(t, IPC_VPN) := SetByte(FlatAt(m, Page(t, IPC_VPN)), off, b)] else m
    case _ => m
  }

  lemma MappedPage(s: Sys, p: Page)
    requires Inv(s) && p in s.hw && p.tid !in s.blocked
    ensures InFrame(s.pt, p) && s.pt[p].frame == s.hw[p].frame && s.hw[p].frame in s.mem && Settled(s, p)
    ensures s.hw[p].writable ==> Writable(s, p)
  {
    NowSettled(s, p);
    hide QueuesOk, TablesOk, SlotsOk, PutsOk, GetsOk, DirtyOk, CleanOk, LeavingOk, ArrivingOk, WaitersOk;
    assert ResidentAt(s.pt, p, s.hw[p].frame);
  }

  lemma IpcPage(s: Sys, p: Page)
    requires Inv(s) && p.vpn == IPC_VPN && InFrame(s.pt, p)
    ensures s.pt[p].frame in s.mem && Writable(s, p)
  {
    hide QueuesOk, MappingsOk, SlotsOk, PutsOk, GetsOk, DirtyOk, CleanOk, LeavingOk, ArrivingOk, WaitersOk;
    assert ResidentAt(s.pt, p, s.pt[p].frame);
  }

  /** A user read delivers the byte of the flat memory. */
  lemma SeenIsFlat(s: Sys, m: Flat, p: Page, off: nat)
    requires Inv(s) && Shows(s, m) && p in s.hw && p.tid !in s.blocked && off < PAGESIZE
    ensures Seen(s, p, off) == Some(ByteAt(FlatAt(m, p), off))
  {
    MappedPage(s, p);
    hide Inv, FlatAt, Zero, ShowsEntries, ShowsArriving, Settled;
  }

  lemma StoreStep(s: Sys, p: Page, off: nat, b: Byte, m: Flat)
    requires Inv(s) && Shows(s, m) && Writable(s, p) && s.pt[p].frame in s.mem && off < PAGESIZE
    ensures var s' := StoreByte(s, s.pt[p].frame, off, b); Inv(s') && Shows(s', m[p := SetByte(FlatAt(m, p), off, b)])
  {
    assert InFrame(s.pt, p) && Settled(s, p);
    hide Inv, Shows, Settled;
    StoreInv(s, p, off, b);
    StoreShows(s, p, off, b, m);
  }

  /** One step: the invariant holds on, and the state presents the flat memory after the same step. */
  lemma StepRefines(s: Sys, step: Step, m: Flat)
    requires Inv(s) && Shows(s, m) && Enabled(s, step) && Safe(s, step) && Apply(s, step).Some?
    ensures Inv(Apply(s, step).value) && Shows(Apply(s, step).value, FlatStep(m, step))
  {
    hide Inv, Shows, Fault, PutAck, GetAck, Delete, Start, Create, ServePut, ServeGet, Writable, DeleteSafe,
      StartSafe, SetByte, FlatAt;
    match step
    case Birth(t) => CreateInv(s, t); BirthShows(s, t, m);
    case Kill(t) => DeleteInv(s, t); DeleteShows(s, t, m);
    case Exec(t) => StartInv(s, t); StartShows(s, t, m);
    case Touch(p, w, id) => FaultInv(s, p, w, id, m);
    case Load(p, off) =>
    case Store(p, off, b) => MappedPage(s, p); StoreStep(s, p, off, b, m);
    case IpcStore(t, off, b) => IpcPage(s, Page(t, IPC_VPN)); StoreStep(s, Page(t, IPC_VPN), off, b, m);
    case ServerWrites(r) => ServePutInv(s, r, m);
    case WriteAcked(r) => PutAckInv(s, r, m);
    case ServerReads(id) => ServeGetInv(s, id, m);
    case ReadAnswered(id) => GetAckInv(s, id, m);
  }

  lemma BirthShows(s: Sys, t: Tid, m: Flat)
    requires Shows(s, m)
    ensures Shows(Create(s, t), m)
  {
    hide Shows;
    SameProcesses(s, s.procs + {t}, s.blocked, m);
    assert Create(s, t) == s.(procs := s.procs + {t}, blocked := s.blocked);
  }

  // ------------------------------------------------------------------ runs

  /** A freshly booted server: every frame on the stack, no process, arbitrary memory and swap file. */
  ghost predicate Init(s: Sys) {
    && NoDup(s.free) && s.frames == Elems(s.free)
    && s.procs == {} && s.pt == map[] && s.items == map[] && s.active == [] && s.swapping == []
    && s.used == {} && s.hw == map[] && s.puts == map[] && s.gets == map[] && s.blocked == {}
    && StoresOk(s.frames, s.mem, s.file)
  }

  lemma InitInv(s: Sys)
    requires Init(s)
    ensures Inv(s) && Shows(s, map[])
  {
    hide StoresOk;
  }

  /** The state after `run`; None if some step was not possible, not safe, or stopped the server. */
  ghost function After(s: Sys, run: seq<Step>): Option<Sys> {
    if run == [] then Some(s)
    else
      var prev := After(s, run[..|run| - 1]);
      var step := run[|run| - 1];
      if prev.Some? && Enabled(prev.value, step) && Safe(prev.value, step) then Apply(prev.value, step) else None
  }

  function FlatAfter(run: seq<Step>): Flat {
    if run == [] then map[] else FlatStep(FlatAfter(run[..|run| - 1]), run[|run| - 1])
  }

  /** Every run refines the flat memory, and the invariant holds in every reachable state. */
  lemma {:induction false} RunRefines(s: Sys, run: seq<Step>)
    requires Init(s) && After(s, run).Some?
    ensures Inv(After(s, run).value) && Shows(After(s, run).value, FlatAfter(run))
  {
    hide Inv, Shows, Init, Apply, Enabled, Safe;
    if run == [] {
      InitInv(s);
    } else {
      RunRefines(s, run[..|run| - 1]);
      StepRefines(After(s, run[..|run| - 1]).value, run[|run| - 1], FlatAfter(run[..|run| - 1]));
    }
  }

  /** The byte last stored at an address in `run`, or zero if none was since the page was last freed. */
  function LastWritten(run: seq<Step>, p: Page, off: nat): Byte {
    if run == [] then 0
    else
      var before := LastWritten(run[..|run| - 1], p, off);
      match run[|run| - 1]
      case Store(q, o, b) => if q == p && o == off then b else before
      case IpcStore(t, o, b) => if Page(t, IPC_VPN) == p && o == off then b else before
      case Kill(t) => if Within(p, t, 0, ALL_PAGES) then 0 else before
      case Exec(t) => if Within(p, t, HEAP_START_VPN, HEAP_END_VPN) then 0 else before
      case _ => before
  }

  lemma SetByteAt(d: Bytes, off: nat, b: Byte, o: nat)
    requires off < PAGESIZE && o < PAGESIZE
    ensures ByteAt(SetByte(d, off, b), o) == if o == off then b else ByteAt(d, o)
  {
    assert off == off / BATCH_SIZE * BATCH_SIZE + off % BATCH_SIZE;
    assert o == o / BATCH_SIZE * BATCH_SIZE + o % BATCH_SIZE;
  }

  lemma {:induction false} FlatIsLastWritten(run: seq<Step>, p: Page, off: nat)
    requires off < PAGESIZE
    ensures ByteAt(FlatAt(FlatAfter(run), p), off) == LastWritten(run, p, off)
  {
    if run != [] {
      var m, step := FlatAfter(run[..|run| - 1]), run[|run| - 1];
      FlatIsLastWritten(run[..|run| - 1], p, off);
      hide ByteAt, SetByte, Zero;
      match step
      case Store(q, o, b) => if o < PAGESIZE { SetByteAt(FlatAt(m, q), o, b, off); }
      case IpcStore(t, o, b) => if o < PAGESIZE { SetByteAt(FlatAt(m, Page(t, IPC_VPN)), o, b, off); }
      case Kill(t) => FreedFlat(m, t, 0, ALL_PAGES);
      case Exec(t) => FreedFlat(m, t, HEAP_START_VPN, HEAP_END_VPN);
      case _ =>
    }
  }

  /**
   Paging is invisible: whenever a process reads through its mapping, after any run,
   it gets the byte it last wrote there, and zero if it never wrote.
   */
  lemma PagingInvisible(s: Sys, run: seq<Step>, p: Page, off: nat)
    requires Init(s) && After(s, run).Some? && Enabled(After(s, run).value, Load(p, off))
    ensures Seen(After(s, run).value, p, off) == Some(LastWritten(run, p, off))
  {
    hide Inv, Shows, Init, After, Seen, LastWritten, ByteAt, FlatAt;
    RunRefines(s, run);
    SeenIsFlat(After(s, run).value, FlatAfter(run), p, off);
    FlatIsLastWritten(run, p, off);
  }
}
