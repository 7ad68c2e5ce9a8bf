/**
 State of the demand-paging server: page tables, page queue items, the frame
 stack, the swap file with its slot map, the hardware mappings held by L4 and
 the NFS requests that have been issued and not yet answered.
 */
module PagingState {
  import opened Seqs

  type Tid = nat
  type Vpn = nat
  type Frame = nat
  type Slot = nat
  /** Identity of a page queue item, that is, the address malloc returned for it. */
  type Id = nat
  type Byte = b: int | 0 <= b < 256

  const PAGESIZE := 4096
  const BATCH_SIZE := 512
  const CHUNKS := 8
  const MAX_SWAP_ENTRIES := 5000
  /** Page number of the shared IPC page at 0x60000000. */
  const IPC_VPN: Vpn := 0x60000
  /** Page number of the address STACK_TOP. */
  const STACK_TOP_VPN: Vpn := 0xC0000

  type Chunk = c: seq<Byte> | |c| == BATCH_SIZE witness Repeat(0, BATCH_SIZE)
  /** Page contents: the eight chunks that one swap transfers. */
  type Bytes = p: seq<Chunk> | |p| == CHUNKS witness Zero()

  function Repeat<T>(x: T, n: nat): (r: seq<T>)
    ensures |r| == n && forall i :: 0 <= i < n ==> r[i] == x
  {
    if n == 0 then [] else [x] + Repeat(x, n - 1)
  }

  /** The contents memset gives a new frame. */
  function Zero(): (r: seq<Chunk>)
    ensures |r| == CHUNKS
    ensures forall k, i :: 0 <= k < CHUNKS && 0 <= i < BATCH_SIZE ==> r[k][i] == 0
  {
    Repeat<Chunk>(Repeat<Byte>(0, BATCH_SIZE), CHUNKS)
  }

  function ByteAt(p: Bytes, off: nat): Byte
    requires off < PAGESIZE
  {
    p[off / BATCH_SIZE][off % BATCH_SIZE]
  }

  function SetByte(p: Bytes, off: nat, b: Byte): Bytes
    requires off < PAGESIZE
  {
    var k := off / BATCH_SIZE;
    var c: Chunk := p[k][off % BATCH_SIZE := b];
    p[k := c]
  }

  datatype Page = Page(tid: Tid, vpn: Vpn)

  /** A page table entry; a page that has no entry is untouched. */
  datatype Pte = Resident(frame: Frame, dirty: bool) | Swapped(slot: Slot)

  /** The fields of page_queue_item. */
  datatype Item = Item(page: Page, slot: Option<Slot>, toSwap: int, initiator: Option<Tid>, deleted: bool)

  datatype Mapping = Mapping(frame: Frame, writable: bool)

  /** nfs_write in flight; its data was copied when the request was built. */
  datatype WriteOp = WriteOp(slot: Slot, data: Chunk, done: bool)

  /** nfs_read in flight; `reply` is what the server answered, if it already did. */
  datatype ReadOp = ReadOp(slot: Slot, chunk: nat, reply: Option<Chunk>)

  datatype Request = Request(id: Id, chunk: nat)

  datatype Sys = Sys(
    frames: set<Frame>,             // the frames the frame table manages
    procs: set<Tid>,                // processes with a page table
    pt: map<Page, Pte>,             // all page tables
    items: map<Id, Item>,           // allocated page queue items
    active: seq<Id>,                // active_pages_head
    swapping: seq<Id>,              // swapping_pages_head
    free: seq<Frame>,               // frame stack, top last
    used: set<Slot>,                // bits set in swap_bitfield
    hw: map<Page, Mapping>,         // L4 mappings
    mem: map<Frame, Bytes>,         // contents of physical frames
    file: map<Slot, Bytes>,         // contents of the swap file
    puts: map<Request, WriteOp>,    // unacknowledged nfs_write calls
    gets: map<Id, ReadOp>,          // unanswered nfs_read calls
    blocked: set<Tid>)              // threads whose page fault has not been answered

  predicate ValidSlot(i: int) { 0 <= i < MAX_SWAP_ENTRIES }

  /** The chunks of item `id` whose write has not been acknowledged. */
  function Outstanding(puts: map<Request, WriteOp>, id: Id): set<nat> {
    set k: nat | k < CHUNKS && Request(id, k) in puts
  }

  /** The page of item `id` has not been freed meanwhile. */
  predicate Live(items: map<Id, Item>, id: Id) {
    id in items && !items[id].deleted
  }

  /** `id` is the queue item of page `p`. */
  predicate Holds(items: map<Id, Item>, id: Id, p: Page) {
    Live(items, id) && items[id].page == p
  }

  predicate OwnsSlot(items: map<Id, Item>, id: Id, x: Slot) {
    id in items && items[id].slot == Some(x)
  }

  predicate ResidentAt(pt: map<Page, Pte>, p: Page, f: Frame) {
    p in pt && pt[p].Resident? && pt[p].frame == f
  }

  predicate InFrame(pt: map<Page, Pte>, p: Page) {
    p in pt && pt[p].Resident?
  }

  predicate SwappedTo(pt: map<Page, Pte>, p: Page, x: Slot) {
    p in pt && pt[p] == Swapped(x)
  }

  /** The page of `id` is being read back from the swap file. */
  predicate Arriving(s: Sys, id: Id) {
    id in s.gets && Live(s.items, id)
  }

  /** The page of `id` is being written to the swap file. */
  predicate Leaving(s: Sys, id: Id) {
    id in s.swapping && id !in s.gets && Live(s.items, id)
  }

  // ------------------------------------------------------------- invariant

  /** Both queues are duplicate free, disjoint, and hold exactly the allocated items. */
  ghost predicate QueuesOk(items: map<Id, Item>, active: seq<Id>, swapping: seq<Id>) {
    && NoDup(active) && NoDup(swapping)
    && (forall id :: id in active ==> id !in swapping)
    && (forall id :: id in items <==> id in active || id in swapping)
    && (forall id :: id in active ==> !items[id].deleted && items[id].initiator.None?)
  }

  /** Every resident page outside the IPC page has exactly one queue item; no other page has one. */
  ghost predicate TablesOk(procs: set<Tid>, pt: map<Page, Pte>, items: map<Id, Item>) {
    && (forall p :: p in pt ==> p.tid in procs && p.vpn <= STACK_TOP_VPN)
    && (forall id :: Live(items, id) ==> InFrame(pt, items[id].page) && items[id].page.vpn != IPC_VPN)
    && (forall id, id' :: Live(items, id) && Live(items, id') && items[id].page == items[id'].page ==> id == id')
    && (forall p :: InFrame(pt, p) && p.vpn != IPC_VPN ==> exists id :: Holds(items, id, p))
    && (forall p :: p in pt && pt[p].Swapped? ==> p.vpn != IPC_VPN)
  }

  /** The frame stack and the resident entries partition the frames. */
  ghost predicate FramesOk(frames: set<Frame>, free: seq<Frame>, pt: map<Page, Pte>) {
    && NoDup(free)
    && (forall f :: f in free ==> f in frames)
    && (forall p, f :: ResidentAt(pt, p, f) ==> f in frames && f !in free)
    && (forall p, p', f :: ResidentAt(pt, p, f) && ResidentAt(pt, p', f) ==> p == p')
    && (forall f :: f in frames && f !in free ==> exists p :: ResidentAt(pt, p, f))
  }

  /** A hardware mapping shows the frame of its own entry, and a writable one is dirty. */
  ghost predicate MappingsOk(hw: map<Page, Mapping>, pt: map<Page, Pte>) {
    forall p :: p in hw ==> ResidentAt(pt, p, hw[p].frame) && (hw[p].writable ==> pt[p].dirty)
  }

  /** Each swap slot in use has at most one owner, a swapped entry or a queue item. */
  ghost predicate SlotsOk(used: set<Slot>, pt: map<Page, Pte>, items: map<Id, Item>) {
    && (forall x :: x in used ==> ValidSlot(x))
    && (forall p, x :: SwappedTo(pt, p, x) ==> x in used)
    && (forall id, x :: OwnsSlot(items, id, x) ==> x in used)
    && (forall p, p', x :: SwappedTo(pt, p, x) && SwappedTo(pt, p', x) ==> p == p')
    && (forall id, id', x :: OwnsSlot(items, id, x) && OwnsSlot(items, id', x) ==> id == id')
    && (forall id, p, x :: OwnsSlot(items, id, x) ==> !SwappedTo(pt, p, x))
  }

  /** Every frame and every slot has contents. */
  ghost predicate StoresOk(frames: set<Frame>, mem: map<Frame, Bytes>, file: map<Slot, Bytes>) {
    && (forall f :: f in frames <==> f in mem)
    && (forall x: Slot :: ValidSlot(x) ==> x in file)
  }

  /** The item of an nfs_write in flight waits in the swapping queue for it. */
  ghost predicate PutsOk(puts: map<Request, WriteOp>, gets: map<Id, ReadOp>, items: map<Id, Item>, swapping: seq<Id>) {
    && (forall r :: r in puts ==> r.id in swapping && r.chunk < CHUNKS && OwnsSlot(items, r.id, puts[r].slot))
    && (forall id :: id in swapping && id !in gets ==>
          && id in items && items[id].slot.Some?
          && Outstanding(puts, id) != {}
          && items[id].toSwap == BATCH_SIZE * |Outstanding(puts, id)|)
  }

  /** The item of an nfs_read in flight has no write in flight, and its to_swap is the read position. */
  ghost predicate GetsOk(puts: map<Request, WriteOp>, gets: map<Id, ReadOp>, items: map<Id, Item>, swapping: seq<Id>) {
    forall id :: id in gets ==>
      && id in swapping && OwnsSlot(items, id, gets[id].slot)
      && gets[id].chunk < CHUNKS
      && items[id].toSwap == BATCH_SIZE * gets[id].chunk
      && items[id].initiator.None?
      && forall r :: r in puts ==> r.id != id
  }

  /** A page on its way out is dirty; a page on its way in is clean and not mapped. */
  ghost predicate DirtyOk(s: Sys) {
    && (forall id :: Leaving(s, id) && InFrame(s.pt, s.items[id].page) ==> s.pt[s.items[id].page].dirty)
    && (forall id :: Arriving(s, id) && InFrame(s.pt, s.items[id].page) ==>
          !s.pt[s.items[id].page].dirty && s.items[id].page !in s.hw)
  }

  /** Slot `x` holds exactly the bytes of frame `f`. */
  predicate Saved(file: map<Slot, Bytes>, mem: map<Frame, Bytes>, x: Option<Slot>, f: Frame) {
    x.Some? && x.value in file && f in mem && file[x.value] == mem[f]
  }

  /** A clean page of the active queue has a slot that holds exactly the bytes of its frame. */
  ghost predicate CleanOk(s: Sys) {
    forall id :: id in s.active && Live(s.items, id) && InFrame(s.pt, s.items[id].page) && !s.pt[s.items[id].page].dirty
      ==> Saved(s.file, s.mem, s.items[id].slot, s.pt[s.items[id].page].frame)
  }

  /** Chunk `k` of an outgoing page: the slot has, or the pending request carries, the frame's bytes. */
  predicate ChunkSent(puts: map<Request, WriteOp>, id: Id, onFile: Bytes, inFrame: Bytes, k: nat)
    requires k < CHUNKS
  {
    var r := Request(id, k);
    && (r in puts ==> puts[r].data == inFrame[k])
    && (r !in puts || puts[r].done ==> onFile[k] == inFrame[k])
  }

  predicate Sent(puts: map<Request, WriteOp>, file: map<Slot, Bytes>, mem: map<Frame, Bytes>,
                 id: Id, x: Option<Slot>, f: Frame) {
    && x.Some? && x.value in file && f in mem
    && forall k: nat :: k < CHUNKS ==> ChunkSent(puts, id, file[x.value], mem[f], k)
  }

  /** A page on its way out that nobody touched since is safely in the slot or in a request. */
  ghost predicate LeavingOk(s: Sys) {
    forall id :: Leaving(s, id) && InFrame(s.pt, s.items[id].page) && s.items[id].page !in s.hw
      ==> Sent(s.puts, s.file, s.mem, id, s.items[id].slot, s.pt[s.items[id].page].frame)
  }

  /** The chunks before `op.chunk`, and the reply to `op` if there is one, are those of the slot. */
  predicate Fetched(op: ReadOp, file: map<Slot, Bytes>, mem: map<Frame, Bytes>, x: Option<Slot>, f: Frame) {
    && x.Some? && x.value in file && f in mem && op.chunk < CHUNKS
    && (forall k: nat :: k < op.chunk ==> mem[f][k] == file[x.value][k])
    && (op.reply.Some? ==> op.reply.value == file[x.value][op.chunk])
  }

  /** A page on its way in: what was read so far agrees with its slot. */
  ghost predicate ArrivingOk(s: Sys) {
    forall id :: Arriving(s, id) && InFrame(s.pt, s.items[id].page)
      ==> Fetched(s.gets[id], s.file, s.mem, s.items[id].slot, s.pt[s.items[id].page].frame)
  }

  /** Thread `t` waits for the last chunk of item `id`: it started the swap-out, or owns the page read in. */
  predicate Awaits(items: map<Id, Item>, gets: map<Id, ReadOp>, t: Tid, id: Id) {
    && id in items
    && if id in gets then !items[id].deleted && items[id].page.tid == t else items[id].initiator == Some(t)
  }

  /** Each thread waits for at most one item, and only blocked threads wait. */
  ghost predicate WaitersOk(procs: set<Tid>, blocked: set<Tid>, items: map<Id, Item>, gets: map<Id, ReadOp>) {
    && (forall t :: t in blocked ==> t in procs)
    && (forall t, id :: Awaits(items, gets, t, id) ==> t in blocked)
    && (forall t, id, id' :: Awaits(items, gets, t, id) && Awaits(items, gets, t, id') ==> id == id')
  }

  ghost predicate Inv(s: Sys) {
    && QueuesOk(s.items, s.active, s.swapping)
    && TablesOk(s.procs, s.pt, s.items)
    && FramesOk(s.frames, s.free, s.pt)
    && MappingsOk(s.hw, s.pt)
    && SlotsOk(s.used, s.pt, s.items)
    && StoresOk(s.frames, s.mem, s.file)
    && PutsOk(s.puts, s.gets, s.items, s.swapping)
    && GetsOk(s.puts, s.gets, s.items, s.swapping)
    && DirtyOk(s) && CleanOk(s) && LeavingOk(s) && ArrivingOk(s)
    && WaitersOk(s.procs, s.blocked, s.items, s.gets)
  }

  // ------------------------------------------------------------ flat memory

  /** The memory each process believes it has; pages never written read as zero. */
  type Flat = map<Page, Bytes>

  function FlatAt(m: Flat, p: Page): Bytes {
    if p in m then m[p] else Zero()
  }

  predicate SlotShows(file: map<Slot, Bytes>, x: Option<Slot>, b: Bytes) {
    x.Some? && x.value in file && file[x.value] == b
  }

  /** No transfer into the frame of page `p` is under way. */
  ghost predicate Settled(s: Sys, p: Page) {
    forall id :: Arriving(s, id) ==> s.items[id].page != p
  }

  /** Pages without an entry show zeros, swapped pages their slot. */
  ghost predicate ShowsEntries(pt: map<Page, Pte>, file: map<Slot, Bytes>, m: Flat) {
    && (forall p :: p !in pt ==> FlatAt(m, p) == Zero())
    && (forall p :: p in pt && pt[p].Swapped? ==> SlotShows(file, Some(pt[p].slot), FlatAt(m, p)))
  }

  /** Pages on their way in show their slot. */
  ghost predicate ShowsArriving(s: Sys, m: Flat) {
    forall id :: Arriving(s, id) ==> SlotShows(s.file, s.items[id].slot, FlatAt(m, s.items[id].page))
  }

  /** All other resident pages show their frame. */
  ghost predicate ShowsFrames(s: Sys, m: Flat) {
    forall p :: InFrame(s.pt, p) && Settled(s, p) ==>
      s.pt[p].frame in s.mem && FlatAt(m, p) == s.mem[s.pt[p].frame]
  }

  /** The paged state `s` presents flat memory `m`. */
  ghost predicate Shows(s: Sys, m: Flat) {
    ShowsEntries(s.pt, s.file, m) && ShowsArriving(s, m) && ShowsFrames(s, m)
  }
}
