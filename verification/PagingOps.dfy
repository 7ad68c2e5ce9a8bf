/**
 The transitions of the demand-paging server, one function for each piece of
 work the pager and the swapper do before they return to the system call loop.
 */
module PagingOps {
  import opened Seqs
  import opened PagingState

  /** The emulated reference bit: a page counts as referenced while it is mapped. */
  predicate Referenced(s: Sys, id: Id)
    requires id in s.items
  {
    s.items[id].page in s.hw
  }

  predicate Known(s: Sys, q: seq<Id>) {
    forall id :: id in q ==> id in s.items
  }

  /** Position of the oldest unreferenced item, or the queue's length if all are referenced. */
  function ColdIndex(s: Sys, q: seq<Id>): (i: nat)
    requires Known(s, q)
    ensures i <= |q|
    ensures forall j :: 0 <= j < i ==> Referenced(s, q[j])
    ensures i < |q| ==> !Referenced(s, q[i])
  {
    if q == [] || !Referenced(s, q[0]) then 0 else 1 + ColdIndex(s, q[1..])
  }

  function PagesOf(s: Sys, q: seq<Id>): set<Page>
    requires Known(s, q)
  {
    set id | id in q :: s.items[id].page
  }

  /** Second-chance search: the victim comes to the head, every skipped page is unmapped. */
  function Rotate(s: Sys): Sys
    requires Known(s, s.active)
  {
    var i := ColdIndex(s, s.active);
    var j := if i == |s.active| then 0 else i;
    s.(active := s.active[j..] + s.active[..j], hw := s.hw - PagesOf(s, s.active[..i]))
  }

  function FirstFree(used: set<Slot>, from: nat): (r: Option<Slot>)
    requires from <= MAX_SWAP_ENTRIES
    ensures r.Some? ==> from <= r.value < MAX_SWAP_ENTRIES && r.value !in used
                        && forall x: nat :: from <= x < r.value ==> x in used
    ensures r.None? ==> forall x: nat :: from <= x < MAX_SWAP_ENTRIES ==> x in used
    decreases MAX_SWAP_ENTRIES - from
  {
    if from == MAX_SWAP_ENTRIES then None
    else if from !in used then Some(from)
    else FirstFree(used, from + 1)
  }

  /** The queue item at the head, which has no slot yet, receives slot `x`. */
  function GiveSlot(s: Sys, x: Slot): Sys
    requires Known(s, s.active) && s.active != []
  {
    var id := s.active[0];
    s.(items := s.items[id := s.items[id].(slot := Some(x))], used := s.used + {x})
  }

  /** The eight nfs_write calls of one swap-out. */
  function Puts(id: Id, x: Slot, data: Bytes): (m: map<Request, WriteOp>)
    ensures forall r :: r in m <==> r.id == id && r.chunk < CHUNKS
    ensures forall r :: r in m ==> m[r] == WriteOp(x, data[r.chunk], false)
  {
    map r | r in (set k: nat | k < CHUNKS :: Request(id, k)) :: WriteOp(x, data[r.chunk], false)
  }

  predicate HeadReady(s: Sys) {
    && Known(s, s.active) && s.active != []
    && var it := s.items[s.active[0]];
       it.page in s.pt && s.pt[it.page].Resident? && it.slot.Some?
  }

  /** A dirty victim starts its way out on behalf of thread `t`, which stays blocked. */
  function WriteOut(s: Sys, t: Tid): Sys
    requires HeadReady(s) && s.pt[s.items[s.active[0]].page].frame in s.mem
  {
    var id := s.active[0];
    var it := s.items[id];
    s.(active := s.active[1..],
       swapping := s.swapping + [id],
       items := s.items[id := it.(toSwap := PAGESIZE, initiator := Some(t))],
       puts := s.puts + Puts(id, it.slot.value, s.mem[s.pt[it.page].frame]),
       blocked := s.blocked + {t})
  }

  function FrameFree(free: seq<Frame>, f: Frame): seq<Frame> {
    if f in free then free else free + [f]
  }

  /** A clean victim gives up its frame at once. */
  function EvictClean(s: Sys): Sys
    requires HeadReady(s)
  {
    var id := s.active[0];
    var it := s.items[id];
    s.(active := s.active[1..],
       items := s.items - {id},
       pt := s.pt[it.page := Swapped(it.slot.value)],
       free := FrameFree(s.free, s.pt[it.page].frame))
  }

  /** Halt stands for a failed assertion or a call into the kernel debugger. */
  datatype Outcome = Halt | Pending(next: Sys) | Complete(next: Sys)

  /** The victim selected by Rotate, with a slot if it has one or one is free. */
  function Victim(s: Sys): Option<Sys> {
    if s.active == [] || !Known(s, s.active) then None
    else
      var r := Rotate(s);
      var it := r.items[Head(s)];
      if it.slot.Some? then Some(r)
      else
        var x := FirstFree(r.used, 0);
        if x.None? then None else Some(GiveSlot(r, x.value))
  }

  /** The item that heads the queue after Rotate. */
  function Head(s: Sys): (id: Id)
    requires Known(s, s.active) && s.active != []
    ensures Known(Rotate(s), Rotate(s).active) && Rotate(s).active != [] && id == Rotate(s).active[0]
    ensures id in s.active
  {
    var i := ColdIndex(s, s.active);
    if i == |s.active| then s.active[0] else s.active[i]
  }

  /** swap_out: pick a victim and either drop it or start writing it. */
  function SwapOut(s: Sys, t: Tid): Outcome {
    match Victim(s)
    case None => Halt
    case Some(g) =>
      if !HeadReady(g) || g.pt[g.items[g.active[0]].page].frame !in g.mem then Halt
      else if g.pt[g.items[g.active[0]].page].dirty then Pending(WriteOut(g, t))
      else Complete(EvictClean(g))
  }

  /** allocate_new_frame, up to the frame_alloc that ends it. */
  function AllocFrame(s: Sys, t: Tid): Outcome {
    if s.free != [] then Complete(s) else SwapOut(s, t)
  }

  function Top(free: seq<Frame>): Frame
    requires free != []
  {
    free[|free| - 1]
  }

  /** First reference to page `p`: a zeroed frame, and outside the IPC page a new active item. */
  function AllocNew(s: Sys, p: Page, id: Id): Sys
    requires s.free != []
  {
    var f := Top(s.free);
    var s1 := s.(free := s.free[..|s.free| - 1],
                 mem := s.mem[f := Zero()],
                 pt := s.pt[p := Resident(f, p.vpn != IPC_VPN)]);
    if p.vpn == IPC_VPN then s1
    else s1.(items := s.items[id := Item(p, None, 0, None, false)], active := s.active + [id])
  }

  /** A swapped page receives a frame and its first chunk is requested. */
  function BeginSwapIn(s: Sys, p: Page, id: Id): Sys
    requires s.free != [] && p in s.pt && s.pt[p].Swapped?
  {
    var f := Top(s.free);
    var x := s.pt[p].slot;
    s.(free := s.free[..|s.free| - 1],
       mem := s.mem[f := Zero()],
       pt := s.pt[p := Resident(f, false)],
       items := s.items[id := Item(p, Some(x), 0, None, false)],
       swapping := s.swapping + [id],
       gets := s.gets[id := ReadOp(x, 0, None)],
       blocked := s.blocked + {p.tid})
  }

  /** A resident page is mapped with the requested right; write access marks it dirty. */
  function MapPage(s: Sys, p: Page, write: bool): Sys
    requires p in s.pt && s.pt[p].Resident?
  {
    var e := s.pt[p];
    s.(pt := s.pt[p := Resident(e.frame, e.dirty || write)], hw := s.hw[p := Mapping(e.frame, write)])
  }

  /** The part of virtual_mapping that follows allocate_new_frame. */
  function UseFrame(s: Sys, p: Page, write: bool, id: Id): Option<Sys> {
    if s.free == [] then None
    else if p !in s.pt then Some(MapPage(AllocNew(s, p, id), p, write))
    else if s.pt[p].Swapped? then Some(BeginSwapIn(s, p, id))
    else None
  }

  /** virtual_mapping: None stands for a failed assertion or a call into the kernel debugger. */
  function Fault(s: Sys, p: Page, write: bool, id: Id): Option<Sys> {
    if p in s.pt && s.pt[p].Resident? then Some(MapPage(s, p, write))
    else match AllocFrame(s, p.tid)
      case Halt => None
      case Pending(s1) => Some(s1)
      case Complete(s1) => UseFrame(s1, p, write, id)
  }

  // --------------------------------------------------------- NFS callbacks

  function Without1(q: seq<Id>, id: Id): seq<Id> { Without(q, {id}) }

  function Wake(blocked: set<Tid>, t: Option<Tid>): set<Tid> {
    if t.Some? then blocked - {t.value} else blocked
  }

  /** The item leaves the swapping queue and is freed. */
  function DropSwapping(s: Sys, id: Id): Sys {
    s.(swapping := Without1(s.swapping, id), items := s.items - {id})
  }

  /** The page of a completed, unreferenced swap-out gives up its frame. */
  function RetirePage(s: Sys, id: Id): Sys
    requires id in s.items && s.items[id].slot.Some?
    requires s.items[id].page in s.pt && s.pt[s.items[id].page].Resident?
  {
    var it := s.items[id];
    s.(free := FrameFree(s.free, s.pt[it.page].frame), pt := s.pt[it.page := Swapped(it.slot.value)])
  }

  /** The bookkeeping of one acknowledgement, before the test for completion. */
  function CountAck(s: Sys, r: Request): Sys
    requires r.id in s.items
  {
    s.(puts := s.puts - {r}, items := s.items[r.id := s.items[r.id].(toSwap := s.items[r.id].toSwap - BATCH_SIZE)])
  }

  /** swap_write_callback once to_swap has reached zero. */
  function FinishPut(s: Sys, id: Id): Sys
    requires id in s.items
    requires !s.items[id].deleted ==>
               s.items[id].slot.Some? && s.items[id].page in s.pt && s.pt[s.items[id].page].Resident?
  {
    var it := s.items[id];
    if !Referenced(s, id) then
      if !it.deleted then DropSwapping(RetirePage(s, id), id).(blocked := Wake(s.blocked, it.initiator))
      else DropSwapping(s, id)
    else
      var w := s.(blocked := Wake(s.blocked, it.initiator));
      if !it.deleted then
        w.(swapping := Without1(s.swapping, id), active := s.active + [id],
           items := s.items[id := it.(initiator := None)])
      else DropSwapping(w, id)
  }

  /** The page table lookup of a callback succeeds. */
  predicate EntryFound(s: Sys, id: Id) {
    id in s.items && s.items[id].slot.Some? && InFrame(s.pt, s.items[id].page) && s.pt[s.items[id].page].frame in s.mem
  }

  /**
   swap_write_callback. The entry is looked up first and used only if the page was not
   deleted; None stands for the use of a freed item or of an entry that is not there.
   */
  function PutAck(s: Sys, r: Request): Option<Sys> {
    if r.id !in s.items then None
    else
      var c := CountAck(s, r);
      if c.items[r.id].toSwap != 0 then Some(c)
      else if !c.items[r.id].deleted && !EntryFound(c, r.id) then None
      else Some(FinishPut(c, r.id))
  }

  /** memcpy of one chunk to the read position in the frame. */
  function LoadChunk(s: Sys, id: Id, c: Chunk): Bytes
    requires EntryFound(s, id) && 0 <= s.items[id].toSwap < PAGESIZE
  {
    s.mem[s.pt[s.items[id].page].frame][s.items[id].toSwap / BATCH_SIZE := c]
  }

  /** swap_read_callback with the data of one chunk; None as for PutAck. */
  function GetAck(s: Sys, id: Id, data: Chunk): Option<Sys> {
    if id !in s.items then None
    else
      var it := s.items[id];
      if it.deleted then Some(DropSwapping(s, id).(gets := s.gets - {id}))
      else if !EntryFound(s, id) || !(0 <= it.toSwap < PAGESIZE) then None
      else
        var it' := it.(toSwap := it.toSwap + BATCH_SIZE);
        var s1 := s.(mem := s.mem[s.pt[it.page].frame := LoadChunk(s, id, data)], items := s.items[id := it']);
        if it'.toSwap == PAGESIZE then
          Some(s1.(swapping := Without1(s.swapping, id), active := s.active + [id],
                   gets := s.gets - {id}, blocked := s.blocked - {it.page.tid}))
        else
          Some(s1.(gets := s.gets[id := ReadOp(it.slot.value, it'.toSwap / BATCH_SIZE, None)]))
  }

  // --------------------------------------------------------- the NFS server

  /** The server carries out a write; a resent request may be carried out again. */
  function ServePut(s: Sys, r: Request): Sys
    requires r in s.puts && r.chunk < CHUNKS && s.puts[r].slot in s.file
  {
    var op := s.puts[r];
    var data: Bytes := s.file[op.slot][r.chunk := op.data];
    s.(file := s.file[op.slot := data], puts := s.puts[r := op.(done := true)])
  }

  function ServeGet(s: Sys, id: Id): Sys
    requires id in s.gets && s.gets[id].slot in s.file && s.gets[id].chunk < CHUNKS
  {
    var op := s.gets[id];
    s.(gets := s.gets[id := op.(reply := Some(s.file[op.slot][op.chunk]))])
  }

  // ------------------------------------------------------- user processes

  function StoreByte(s: Sys, f: Frame, off: nat, b: Byte): Sys
    requires f in s.mem && off < PAGESIZE
  {
    s.(mem := s.mem[f := SetByte(s.mem[f], off, b)])
  }

  predicate Within(p: Page, t: Tid, lo: nat, hi: nat) {
    p.tid == t && lo <= p.vpn < hi
  }

  /** pager_unmap_range. */
  function UnmapRange(s: Sys, t: Tid, lo: nat, hi: nat): Sys {
    s.(hw := s.hw - (set p | p in s.hw && Within(p, t, lo, hi) && p in s.pt && s.pt[p].Resident?))
  }

  /** The frame stack after the frames of pages lo..hi of `t` were freed in address order. */
  function FreeFrames(free: seq<Frame>, pt: map<Page, Pte>, t: Tid, lo: nat, hi: nat): seq<Frame>
    decreases hi
  {
    if hi <= lo then free
    else
      var rest := FreeFrames(free, pt, t, lo, hi - 1);
      var p := Page(t, hi - 1);
      if InFrame(pt, p) then FrameFree(rest, pt[p].frame) else rest
  }

  /** The page tables without pages lo..hi of `t`. */
  function Cleared(pt: map<Page, Pte>, t: Tid, lo: nat, hi: nat): map<Page, Pte> {
    map p | p in pt && !Within(p, t, lo, hi) :: pt[p]
  }

  /** Active items whose page lies in the range: they leave the queue. */
  function ActiveWithin(s: Sys, t: Tid, lo: nat, hi: nat): set<Id> {
    set id | id in s.active && id in s.items && Within(s.items[id].page, t, lo, hi)
  }

  /** Slots of the swapped entries in the range. */
  function SwappedSlots(pt: map<Page, Pte>, t: Tid, lo: nat, hi: nat): set<Slot> {
    set p | p in pt && Within(p, t, lo, hi) && pt[p].Swapped? :: pt[p].slot
  }

  function ItemSlots(items: map<Id, Item>, ids: set<Id>): set<Slot> {
    set id | id in ids && id in items && items[id].slot.Some? :: items[id].slot.value
  }

  /** The slots that are released together with the range. */
  function SlotsWithin(s: Sys, t: Tid, lo: nat, hi: nat): set<Slot> {
    SwappedSlots(s.pt, t, lo, hi) + ItemSlots(s.items, ActiveWithin(s, t, lo, hi))
  }

  /** What becomes of an item in flight; `all` tells pager_free_all from pager_free_range. */
  function Cancel(it: Item, t: Tid, lo: nat, hi: nat, all: bool): Item {
    it.(deleted := it.deleted || Within(it.page, t, lo, hi),
        initiator := if it.initiator == Some(t) && (all || lo <= it.page.vpn < hi) then None else it.initiator)
  }

  /** pager_free_all and pager_free_range. */
  function FreeRange(s: Sys, t: Tid, lo: nat, hi: nat, all: bool): Sys {
    s.(pt := Cleared(s.pt, t, lo, hi),
       free := FreeFrames(s.free, s.pt, t, lo, hi),
       used := s.used - SlotsWithin(s, t, lo, hi),
       active := Without(s.active, ActiveWithin(s, t, lo, hi)),
       items := map id | id in s.items && id !in ActiveWithin(s, t, lo, hi) ::
                  if id in s.swapping then Cancel(s.items[id], t, lo, hi, all) else s.items[id])
  }

  const ALL_PAGES := 0x100000
  const HEAP_START_VPN := 0x40000
  const HEAP_END_VPN := 0x40400

  /** The memory part of delete_process: unmapping stops below STACK_TOP, freeing does not. */
  function Delete(s: Sys, t: Tid): Sys {
    FreeRange(UnmapRange(s, t, 0, STACK_TOP_VPN), t, 0, ALL_PAGES, true)
      .(procs := s.procs - {t}, blocked := s.blocked - {t})
  }

  /** start_process: the loader's mappings go, and so does its heap. */
  function Start(s: Sys, t: Tid): Sys {
    FreeRange(UnmapRange(s, t, 0, STACK_TOP_VPN), t, HEAP_START_VPN, HEAP_END_VPN, false)
  }

  function Create(s: Sys, t: Tid): Sys {
    s.(procs := s.procs + {t})
  }
}
