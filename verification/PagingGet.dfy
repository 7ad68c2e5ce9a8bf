/**
 Reading a page back chunk by chunk (swap_read_callback), the NFS server's side
 of both transfers, and the stores of user processes.
 */
module PagingGet {
  import opened Seqs
  import opened PagingState
  import opened PagingOps
  import opened PagingEvict
  import opened PagingFault
  import opened PagingPut

  // ------------------------------------------------------- server executes

  /** Writing slot `x` concerns only its owner. */
  lemma ServePutSlots(s: Sys, r: Request, m: Flat)
    requires r in s.puts && r.chunk < CHUNKS && s.puts[r].slot in s.file
    requires OwnsSlot(s.items, r.id, s.puts[r].slot) && SlotsOk(s.used, s.pt, s.items)
    requires r.id !in s.gets
    requires ShowsEntries(s.pt, s.file, m) && ShowsArriving(s, m)
    ensures ShowsEntries(s.pt, ServePut(s, r).file, m) && ShowsArriving(ServePut(s, r), m)
  {
    hide FlatAt, Zero;
    var s' := ServePut(s, r);
    var x := s.puts[r].slot;
    assert forall p :: p in s.pt && s.pt[p].Swapped? ==> SwappedTo(s.pt, p, s.pt[p].slot);
    assert forall id :: Arriving(s', id) <==> Arriving(s, id);
    assert forall id :: id in s.items && s.items[id].slot.Some? ==> OwnsSlot(s.items, id, s.items[id].slot.value);
  }

  lemma ServePutClean(s: Sys, r: Request)
    requires r in s.puts && r.chunk < CHUNKS && s.puts[r].slot in s.file
    requires OwnsSlot(s.items, r.id, s.puts[r].slot) && SlotsOk(s.used, s.pt, s.items)
    requires r.id !in s.gets && r.id !in s.active
    requires DirtyOk(s) && CleanOk(s) && ArrivingOk(s)
    ensures var s' := ServePut(s, r); DirtyOk(s') && CleanOk(s') && ArrivingOk(s')
  {
    var s' := ServePut(s, r);
    assert forall id :: Arriving(s', id) <==> Arriving(s, id);
    assert forall id :: Leaving(s', id) <==> Leaving(s, id);
    assert forall id :: id in s.items && s.items[id].slot.Some? ==> OwnsSlot(s.items, id, s.items[id].slot.value);
  }

  /** Carrying out a write of the item itself completes its chunk. */
  lemma SentServed(s: Sys, r: Request, f: Frame)
    requires r in s.puts && r.chunk < CHUNKS && s.puts[r].slot in s.file
    requires Sent(s.puts, s.file, s.mem, r.id, Some(s.puts[r].slot), f)
    ensures Sent(ServePut(s, r).puts, ServePut(s, r).file, s.mem, r.id, Some(s.puts[r].slot), f)
  {
    var s', x := ServePut(s, r), s.puts[r].slot;
    forall k: nat | k < CHUNKS
      ensures ChunkSent(s'.puts, r.id, s'.file[x], s.mem[f], k)
    {
      assert ChunkSent(s.puts, r.id, s.file[x], s.mem[f], k);
      assert ChunkSent(s.puts, r.id, s.file[x], s.mem[f], r.chunk);
    }
  }

  lemma SentOtherSlot(s: Sys, r: Request, id: Id, x: Option<Slot>, f: Frame)
    requires r in s.puts && r.chunk < CHUNKS && s.puts[r].slot in s.file
    requires id != r.id && x != Some(s.puts[r].slot)
    requires Sent(s.puts, s.file, s.mem, id, x, f)
    ensures Sent(ServePut(s, r).puts, ServePut(s, r).file, s.mem, id, x, f)
  {
    var s' := ServePut(s, r);
    forall k: nat | k < CHUNKS
      ensures ChunkSent(s'.puts, id, s'.file[x.value], s.mem[f], k)
    {
      assert ChunkSent(s.puts, id, s.file[x.value], s.mem[f], k);
    }
  }

  lemma ServePutLeaving(s: Sys, r: Request)
    requires r in s.puts && r.chunk < CHUNKS && s.puts[r].slot in s.file
    requires OwnsSlot(s.items, r.id, s.puts[r].slot) && SlotsOk(s.used, s.pt, s.items)
    requires LeavingOk(s)
    ensures LeavingOk(ServePut(s, r))
  {
    hide Sent;
    var s' := ServePut(s, r);
    forall id | Leaving(s', id) && InFrame(s'.pt, s'.items[id].page) && s'.items[id].page !in s'.hw
      ensures Sent(s'.puts, s'.file, s'.mem, id, s'.items[id].slot, s'.pt[s'.items[id].page].frame)
    {
      var x, f := s.items[id].slot, s.pt[s.items[id].page].frame;
      assert Leaving(s, id);
      if id == r.id {
        SentServed(s, r, f);
      } else {
        assert x.Some? ==> OwnsSlot(s.items, id, x.value);
        SentOtherSlot(s, r, id, x, f);
      }
    }
  }

  lemma ServePutFlights(s: Sys, r: Request)
    requires r in s.puts && r.chunk < CHUNKS && s.puts[r].slot in s.file
    requires PutsOk(s.puts, s.gets, s.items, s.swapping) && GetsOk(s.puts, s.gets, s.items, s.swapping)
    ensures var s' := ServePut(s, r); PutsOk(s'.puts, s.gets, s.items, s.swapping)
    ensures var s' := ServePut(s, r); GetsOk(s'.puts, s.gets, s.items, s.swapping)
  {
    assert forall id :: Outstanding(ServePut(s, r).puts, id) == Outstanding(s.puts, id);
  }

  lemma CanServePut(s: Sys, r: Request)
    requires Inv(s) && r in s.puts
    ensures r.chunk < CHUNKS && s.puts[r].slot in s.file && OwnsSlot(s.items, r.id, s.puts[r].slot)
    ensures r.id !in s.gets && r.id !in s.active
  {
    hide TablesOk, FramesOk, MappingsOk, DirtyOk, CleanOk, LeavingOk, ArrivingOk, WaitersOk;
  }

  /** The server may carry out a write in flight at any time, and more than once. */
  lemma ServePutInv(s: Sys, r: Request, m: Flat)
    requires Inv(s) && r in s.puts && r.chunk < CHUNKS && s.puts[r].slot in s.file && Shows(s, m)
    ensures Inv(ServePut(s, r)) && Shows(ServePut(s, r), m)
  {
    hide QueuesOk, TablesOk, FramesOk, MappingsOk, SlotsOk, PutsOk, GetsOk, DirtyOk, CleanOk, LeavingOk, ArrivingOk,
      WaitersOk, ShowsEntries, ShowsArriving, OwnsSlot;
    CanServePut(s, r);
    ServePutSlots(s, r, m);
    ServePutClean(s, r);
    ServePutLeaving(s, r);
    ServePutFlights(s, r);
    SameArrivals(s, ServePut(s, r));
    hide Settled;
  }

  lemma CanServeGet(s: Sys, id: Id)
    requires Inv(s) && id in s.gets
    ensures s.gets[id].slot in s.file && s.gets[id].chunk < CHUNKS
    ensures OwnsSlot(s.items, id, s.gets[id].slot)
  {
    hide QueuesOk, TablesOk, FramesOk, MappingsOk, PutsOk, DirtyOk, CleanOk, LeavingOk, ArrivingOk, WaitersOk;
  }

  lemma ServeGetContents(s: Sys, id: Id)
    requires id in s.gets && s.gets[id].slot in s.file && s.gets[id].chunk < CHUNKS
    requires OwnsSlot(s.items, id, s.gets[id].slot)
    requires DirtyOk(s) && CleanOk(s) && LeavingOk(s) && ArrivingOk(s)
    ensures var s' := ServeGet(s, id); DirtyOk(s') && CleanOk(s') && LeavingOk(s') && ArrivingOk(s')
  {
    hide Saved, Sent;
    var s' := ServeGet(s, id);
    assert forall i :: Arriving(s', i) <==> Arriving(s, i);
    assert forall i :: Leaving(s', i) <==> Leaving(s, i);
  }

  lemma ServeGetFlights(s: Sys, id: Id)
    requires id in s.gets && s.gets[id].slot in s.file && s.gets[id].chunk < CHUNKS
    requires PutsOk(s.puts, s.gets, s.items, s.swapping) && GetsOk(s.puts, s.gets, s.items, s.swapping)
    requires WaitersOk(s.procs, s.blocked, s.items, s.gets)
    ensures var s' := ServeGet(s, id); PutsOk(s.puts, s'.gets, s.items, s.swapping)
    ensures var s' := ServeGet(s, id); GetsOk(s.puts, s'.gets, s.items, s.swapping)
    ensures WaitersOk(s.procs, s.blocked, s.items, ServeGet(s, id).gets)
  {
    assert forall t, i :: Awaits(s.items, ServeGet(s, id).gets, t, i) <==> Awaits(s.items, s.gets, t, i);
  }

  lemma ServeGetInv(s: Sys, id: Id, m: Flat)
    requires Inv(s) && id in s.gets && s.gets[id].slot in s.file && s.gets[id].chunk < CHUNKS && Shows(s, m)
    ensures Inv(ServeGet(s, id)) && Shows(ServeGet(s, id), m)
  {
    hide QueuesOk, TablesOk, FramesOk, MappingsOk, SlotsOk, StoresOk, PutsOk, GetsOk, DirtyOk, CleanOk, LeavingOk,
      ArrivingOk, WaitersOk, FlatAt, SlotShows, Zero;
    CanServeGet(s, id);
    ServeGetContents(s, id);
    ServeGetFlights(s, id);
    var s' := ServeGet(s, id);
    assert forall i :: Arriving(s', i) <==> Arriving(s, i);
    assert forall q :: Settled(s', q) <==> Settled(s, q);
    hide Settled;
  }

  // -------------------------------------------------- writing into a frame

  lemma FrameMine(frames: set<Frame>, free: seq<Frame>, pt: map<Page, Pte>, p: Page)
    requires FramesOk(frames, free, pt) && InFrame(pt, p)
    ensures forall q :: InFrame(pt, q) && q != p ==> pt[q].frame != pt[p].frame
    ensures pt[p].frame in frames
  {
    assert ResidentAt(pt, p, pt[p].frame);
    assert forall q :: InFrame(pt, q) ==> ResidentAt(pt, q, pt[q].frame);
  }

  /** `s'` is `s` with new contents in the frame of page `p`; all items of other pages stay as they were. */
  ghost predicate Refilled(s: Sys, s': Sys, p: Page, b: Bytes) {
    && InFrame(s.pt, p) && s.pt[p].frame in s.mem
    && (forall q :: InFrame(s.pt, q) && q != p ==> s.pt[q].frame != s.pt[p].frame)
    && s'.mem == s.mem[s.pt[p].frame := b]
    && s'.pt == s.pt && s'.hw == s.hw && s'.file == s.file && s'.puts == s.puts
    && (forall i :: Live(s'.items, i) <==> Live(s.items, i))
    && (forall i :: Live(s.items, i) ==> s'.items[i].page == s.items[i].page)
    && (forall i :: Live(s.items, i) && s.items[i].page != p ==>
          && s'.items[i] == s.items[i]
          && (i in s'.gets <==> i in s.gets) && (i in s.gets ==> s'.gets[i] == s.gets[i])
          && (i in s'.active <==> i in s.active)
          && (i in s'.swapping <==> i in s.swapping))
  }

  lemma RefillClean(s: Sys, s': Sys, p: Page, b: Bytes)
    requires Refilled(s, s', p, b) && CleanOk(s) && ArrivingOk(s)
    requires forall i :: Holds(s'.items, i, p) && i in s'.active && !s.pt[p].dirty ==>
               Saved(s'.file, s'.mem, s'.items[i].slot, s.pt[p].frame)
    requires forall i :: Holds(s'.items, i, p) && i in s'.gets ==>
               Fetched(s'.gets[i], s'.file, s'.mem, s'.items[i].slot, s.pt[p].frame)
    ensures CleanOk(s') && ArrivingOk(s')
  {
    forall i | i in s'.active && Live(s'.items, i) && InFrame(s'.pt, s'.items[i].page) && !s'.pt[s'.items[i].page].dirty
      ensures Saved(s'.file, s'.mem, s'.items[i].slot, s'.pt[s'.items[i].page].frame)
    {
      assert s'.items[i].page == p ==> Holds(s'.items, i, p);
    }
    forall i | Arriving(s', i) && InFrame(s'.pt, s'.items[i].page)
      ensures Fetched(s'.gets[i], s'.file, s'.mem, s'.items[i].slot, s'.pt[s'.items[i].page].frame)
    {
      if s'.items[i].page == p {
        assert Holds(s'.items, i, p);
      } else {
        assert Arriving(s, i);
      }
    }
  }

  lemma RefillLeaving(s: Sys, s': Sys, p: Page, b: Bytes)
    requires Refilled(s, s', p, b) && LeavingOk(s)
    requires forall i :: Leaving(s', i) && s'.items[i].page == p ==> p in s.hw
    ensures LeavingOk(s')
  {
    hide Sent;
    forall i | Leaving(s', i) && InFrame(s'.pt, s'.items[i].page) && s'.items[i].page !in s'.hw
      ensures Sent(s'.puts, s'.file, s'.mem, i, s'.items[i].slot, s'.pt[s'.items[i].page].frame)
    {
      var g := s.pt[s.items[i].page].frame;
      assert Leaving(s, i);
      SentFrame(s.puts, s.file, s.mem, i, s.items[i].slot, g);
      SentSameFrame(s.puts, s.file, s.mem, s'.mem, i, s.items[i].slot, g);
    }
  }

  lemma RefillDirty(s: Sys, s': Sys, p: Page, b: Bytes)
    requires Refilled(s, s', p, b) && DirtyOk(s)
    requires forall i :: Leaving(s', i) && s'.items[i].page == p ==> s.pt[p].dirty
    requires forall i :: Arriving(s', i) && s'.items[i].page == p ==> !s.pt[p].dirty && p !in s.hw
    ensures DirtyOk(s')
  {
    assert forall i :: Leaving(s', i) && s'.items[i].page != p ==> Leaving(s, i);
    assert forall i :: Arriving(s', i) && s'.items[i].page != p ==> Arriving(s, i);
  }

  // --------------------------------------------------------------- Store

  /** Nobody relies on the bytes of page `p`: it is mapped and dirty, or no queue item is about it. */
  ghost predicate Writable(s: Sys, p: Page) {
    && InFrame(s.pt, p) && Settled(s, p)
    && forall id :: Holds(s.items, id, p) ==> s.pt[p].dirty && p in s.hw
  }

  lemma StoreRefills(s: Sys, p: Page, off: nat, b: Byte)
    requires Inv(s) && InFrame(s.pt, p) && off < PAGESIZE
    ensures s.pt[p].frame in s.mem
    ensures var f := s.pt[p].frame; Refilled(s, StoreByte(s, f, off, b), p, SetByte(s.mem[f], off, b))
  {
    hide QueuesOk, TablesOk, FramesOk, MappingsOk, SlotsOk, PutsOk, GetsOk, DirtyOk, CleanOk, LeavingOk,
      ArrivingOk, WaitersOk;
    FrameMine(s.frames, s.free, s.pt, p);
  }

  lemma StoreContents(s: Sys, p: Page, off: nat, b: Byte)
    requires Inv(s) && Writable(s, p) && off < PAGESIZE && s.pt[p].frame in s.mem
    ensures var s' := StoreByte(s, s.pt[p].frame, off, b); DirtyOk(s') && CleanOk(s') && LeavingOk(s') && ArrivingOk(s')
  {
    StoreRefills(s, p, off, b);
    hide QueuesOk, TablesOk, FramesOk, MappingsOk, SlotsOk, StoresOk, PutsOk, GetsOk, DirtyOk, CleanOk, LeavingOk,
      ArrivingOk, WaitersOk, SetByte, Refilled;
    var f := s.pt[p].frame;
    var s' := StoreByte(s, f, off, b);
    assert forall i :: Arriving(s', i) <==> Arriving(s, i);
    assert forall i :: Leaving(s', i) && s'.items[i].page == p ==> Holds(s.items, i, p);
    assert forall i :: Holds(s.items, i, p) && i in s.gets ==> Arriving(s, i);
    RefillClean(s, s', p, SetByte(s.mem[f], off, b));
    RefillLeaving(s, s', p, SetByte(s.mem[f], off, b));
    RefillDirty(s, s', p, SetByte(s.mem[f], off, b));
  }

  lemma StoreInv(s: Sys, p: Page, off: nat, b: Byte)
    requires Inv(s) && Writable(s, p) && off < PAGESIZE && s.pt[p].frame in s.mem
    ensures Inv(StoreByte(s, s.pt[p].frame, off, b))
  {
    StoreContents(s, p, off, b);
    hide QueuesOk, TablesOk, FramesOk, MappingsOk, SlotsOk, PutsOk, GetsOk, DirtyOk, CleanOk, LeavingOk,
      ArrivingOk, WaitersOk, SetByte;
  }

  lemma RefillShowsFrames(s: Sys, s': Sys, p: Page, b: Bytes, m: Flat, m': Flat)
    requires Refilled(s, s', p, b) && ShowsFrames(s, m)
    requires forall q :: q != p ==> FlatAt(m', q) == FlatAt(m, q)
    requires forall q :: q != p && Settled(s', q) ==> Settled(s, q)
    requires Settled(s', p) ==> FlatAt(m', p) == b
    ensures ShowsFrames(s', m')
  {
    hide Settled, FlatAt;
  }

  lemma StoreShowsSlots(s: Sys, s': Sys, p: Page, m: Flat, m': Flat)
    requires s'.pt == s.pt && s'.file == s.file && s'.gets == s.gets && s'.items == s.items
    requires InFrame(s.pt, p) && Settled(s, p) && ShowsEntries(s.pt, s.file, m) && ShowsArriving(s, m)
    requires forall q :: q != p ==> FlatAt(m', q) == FlatAt(m, q)
    ensures ShowsEntries(s'.pt, s'.file, m') && ShowsArriving(s', m')
  {
    hide FlatAt, Zero, SlotShows;
    assert forall i :: Arriving(s', i) <==> Arriving(s, i);
  }

  /** A store through the mapping is a store to the flat memory, at that page and nowhere else. */
  lemma StoreShows(s: Sys, p: Page, off: nat, b: Byte, m: Flat)
    requires Inv(s) && InFrame(s.pt, p) && Settled(s, p) && off < PAGESIZE && s.pt[p].frame in s.mem && Shows(s, m)
    ensures Shows(StoreByte(s, s.pt[p].frame, off, b), m[p := SetByte(FlatAt(m, p), off, b)])
  {
    hide Settled, ShowsEntries;
    StoreRefills(s, p, off, b);
    hide Inv, SetByte, Zero;
    var s' := StoreByte(s, s.pt[p].frame, off, b);
    var stored := SetByte(FlatAt(m, p), off, b);
    var m' := m[p := stored];
    assert forall q :: q != p ==> FlatAt(m', q) == FlatAt(m, q);
    SameArrivals(s, s');
    assert FlatAt(m, p) == s.mem[s.pt[p].frame];
    hide Settled, ShowsEntries, ShowsFrames, ShowsArriving, Refilled, FlatAt;
    StoreShowsSlots(s, s', p, m, m');
    assert FlatAt(m', p) == stored by { assert p in m'; FlatHere(m', p); }
    RefillShowsFrames(s, s', p, stored, m, m');
  }

  lemma FlatHere(m: Flat, p: Page)
    requires p in m
    ensures FlatAt(m, p) == m[p]
  {
  }

  // ---------------------------------------------------------------- GetAck

  /** What swap_read_callback relies on when the page's process is still there. */
  ghost predicate Loading(s: Sys, id: Id) {
    && Arriving(s, id) && id in s.swapping && id !in s.active
    && s.gets[id].reply.Some? && s.gets[id].chunk < CHUNKS
    && s.items[id].toSwap == BATCH_SIZE * s.gets[id].chunk
    && OwnsSlot(s.items, id, s.gets[id].slot) && s.items[id].initiator.None?
    && InFrame(s.pt, s.items[id].page) && s.pt[s.items[id].page].frame in s.mem
    && !s.pt[s.items[id].page].dirty && s.items[id].page !in s.hw
    && Fetched(s.gets[id], s.file, s.mem, s.items[id].slot, s.pt[s.items[id].page].frame)
  }

  lemma LoadingHere(s: Sys, id: Id)
    requires Inv(s) && id in s.gets && s.gets[id].reply.Some? && Live(s.items, id)
    ensures Loading(s, id) && EntryFound(s, id)
  {
    hide SlotsOk, PutsOk, CleanOk, LeavingOk, WaitersOk;
    assert Arriving(s, id);
    assert ResidentAt(s.pt, s.items[id].page, s.pt[s.items[id].page].frame);
  }

  function Next(s: Sys, id: Id): Sys
    requires Loading(s, id)
  {
    var it := s.items[id].(toSwap := s.items[id].toSwap + BATCH_SIZE);
    s.(mem := s.mem[s.pt[it.page].frame := LoadChunk(s, id, s.gets[id].reply.value)],
       items := s.items[id := it],
       gets := s.gets[id := ReadOp(it.slot.value, it.toSwap / BATCH_SIZE, None)])
  }

  function Last(s: Sys, id: Id): Sys
    requires Loading(s, id)
  {
    var it := s.items[id].(toSwap := s.items[id].toSwap + BATCH_SIZE);
    s.(mem := s.mem[s.pt[it.page].frame := LoadChunk(s, id, s.gets[id].reply.value)],
       items := s.items[id := it],
       swapping := Without1(s.swapping, id), active := s.active + [id],
       gets := s.gets - {id}, blocked := s.blocked - {it.page.tid})
  }

  /** After the copy one more chunk of the frame agrees with the slot. */
  lemma LoadedChunk(s: Sys, id: Id)
    requires Loading(s, id)
    ensures var x, k, b := s.gets[id].slot, s.gets[id].chunk, LoadChunk(s, id, s.gets[id].reply.value);
      && x in s.file && (forall j: nat :: j <= k ==> b[j] == s.file[x][j])
      && (k + 1 == CHUNKS ==> b == s.file[x])
  {
    var x, k, b := s.gets[id].slot, s.gets[id].chunk, LoadChunk(s, id, s.gets[id].reply.value);
    assert s.items[id].toSwap / BATCH_SIZE == k;
    if k + 1 == CHUNKS {
      assert forall j: nat :: j < CHUNKS ==> b[j] == s.file[x][j];
    }
  }

  lemma NextRefills(s: Sys, id: Id)
    requires Loading(s, id) && TablesOk(s.procs, s.pt, s.items) && FramesOk(s.frames, s.free, s.pt)
    ensures Refilled(s, Next(s, id), s.items[id].page, LoadChunk(s, id, s.gets[id].reply.value))
  {
    hide TablesOk, FramesOk, Fetched, LoadChunk;
    FrameMine(s.frames, s.free, s.pt, s.items[id].page);
  }

  lemma LastRefills(s: Sys, id: Id)
    requires Loading(s, id) && TablesOk(s.procs, s.pt, s.items) && FramesOk(s.frames, s.free, s.pt)
    ensures Refilled(s, Last(s, id), s.items[id].page, LoadChunk(s, id, s.gets[id].reply.value))
  {
    hide TablesOk, FramesOk, Fetched, LoadChunk;
    FrameMine(s.frames, s.free, s.pt, s.items[id].page);
  }

  lemma NextContents(s: Sys, id: Id)
    requires Loading(s, id) && TablesOk(s.procs, s.pt, s.items) && FramesOk(s.frames, s.free, s.pt)
    requires s.gets[id].chunk + 1 < CHUNKS && CleanOk(s) && ArrivingOk(s) && LeavingOk(s) && DirtyOk(s)
    ensures var s' := Next(s, id); CleanOk(s') && ArrivingOk(s') && LeavingOk(s') && DirtyOk(s')
  {
    var s', p, b := Next(s, id), s.items[id].page, LoadChunk(s, id, s.gets[id].reply.value);
    NextRefills(s, id);
    LoadedChunk(s, id);
    hide TablesOk, FramesOk, CleanOk, ArrivingOk, LeavingOk, DirtyOk, Refilled, LoadChunk;
    assert Fetched(s'.gets[id], s'.file, s'.mem, s'.items[id].slot, s.pt[p].frame);
    assert forall i :: Holds(s'.items, i, p) ==> Holds(s.items, i, p);
    assert forall i :: Leaving(s', i) && s'.items[i].page == p ==> Holds(s.items, i, p);
    RefillClean(s, s', p, b);
    RefillLeaving(s, s', p, b);
    RefillDirty(s, s', p, b);
  }

  lemma LastContents(s: Sys, id: Id)
    requires Loading(s, id) && TablesOk(s.procs, s.pt, s.items) && FramesOk(s.frames, s.free, s.pt)
    requires s.gets[id].chunk + 1 == CHUNKS && CleanOk(s) && ArrivingOk(s) && LeavingOk(s) && DirtyOk(s)
    ensures var s' := Last(s, id); CleanOk(s') && ArrivingOk(s') && LeavingOk(s') && DirtyOk(s')
  {
    var s', p, b := Last(s, id), s.items[id].page, LoadChunk(s, id, s.gets[id].reply.value);
    LastRefills(s, id);
    LoadedChunk(s, id);
    hide TablesOk, FramesOk, CleanOk, ArrivingOk, LeavingOk, DirtyOk, Refilled, LoadChunk;
    assert Saved(s'.file, s'.mem, s'.items[id].slot, s.pt[p].frame);
    assert forall i :: Holds(s'.items, i, p) ==> Holds(s.items, i, p);
    assert forall i :: Leaving(s', i) && s'.items[i].page == p ==> Holds(s.items, i, p);
    RefillClean(s, s', p, b);
    RefillLeaving(s, s', p, b);
    RefillDirty(s, s', p, b);
  }

  lemma LoadSlots(s: Sys, id: Id)
    requires Loading(s, id) && SlotsOk(s.used, s.pt, s.items)
    ensures SlotsOk(s.used, s.pt, Next(s, id).items)
  {
    hide Fetched, LoadChunk;
    assert forall i, y :: OwnsSlot(Next(s, id).items, i, y) <==> OwnsSlot(s.items, i, y);
  }

  lemma NextPuts(s: Sys, id: Id)
    requires Loading(s, id) && PutsOk(s.puts, s.gets, s.items, s.swapping) &&
      GetsOk(s.puts, s.gets, s.items, s.swapping)
    ensures var s' := Next(s, id); PutsOk(s'.puts, s'.gets, s'.items, s'.swapping)
  {
    hide Fetched, LoadChunk;
  }

  lemma NextGets(s: Sys, id: Id)
    requires Loading(s, id) && s.gets[id].chunk + 1 < CHUNKS && GetsOk(s.puts, s.gets, s.items, s.swapping)
    ensures var s' := Next(s, id); GetsOk(s'.puts, s'.gets, s'.items, s'.swapping)
  {
    hide Fetched, LoadChunk;
  }

  lemma NextWaiters(s: Sys, id: Id)
    requires Loading(s, id) && WaitersOk(s.procs, s.blocked, s.items, s.gets)
    ensures var s' := Next(s, id); WaitersOk(s'.procs, s'.blocked, s'.items, s'.gets)
  {
    hide Fetched, LoadChunk;
    var s' := Next(s, id);
    assert forall t, i :: Awaits(s'.items, s'.gets, t, i) <==> Awaits(s.items, s.gets, t, i);
  }

  lemma NextQueues(s: Sys, id: Id)
    requires Loading(s, id) && QueuesOk(s.items, s.active, s.swapping)
    ensures QueuesOk(Next(s, id).items, s.active, s.swapping)
  {
    hide Fetched, LoadChunk;
  }

  lemma NextInv(s: Sys, id: Id)
    requires Inv(s) && Loading(s, id) && s.gets[id].chunk + 1 < CHUNKS
    ensures Inv(Next(s, id))
  {
    hide QueuesOk, TablesOk, FramesOk, MappingsOk, SlotsOk, PutsOk, GetsOk, DirtyOk, CleanOk, LeavingOk,
      ArrivingOk, WaitersOk, LoadChunk, Fetched;
    SamePages(s.procs, s.pt, s.items, Next(s, id).items);
    NextQueues(s, id);
    LoadSlots(s, id);
    NextPuts(s, id);
    NextGets(s, id);
    NextWaiters(s, id);
    NextContents(s, id);
  }

  lemma LastQueues(s: Sys, id: Id)
    requires Loading(s, id) && QueuesOk(s.items, s.active, s.swapping)
    ensures var s' := Last(s, id); QueuesOk(s'.items, s'.active, s'.swapping)
  {
    hide Fetched, LoadChunk;
    WithoutNoDup(s.swapping, {id});
    AppendNoDup(s.active, id);
  }

  lemma LastPuts(s: Sys, id: Id)
    requires Loading(s, id)
    requires PutsOk(s.puts, s.gets, s.items, s.swapping) && GetsOk(s.puts, s.gets, s.items, s.swapping)
    ensures var s' := Last(s, id); PutsOk(s'.puts, s'.gets, s'.items, s'.swapping)
  {
    hide Fetched, LoadChunk, Outstanding;
  }

  lemma LastGets(s: Sys, id: Id)
    requires Loading(s, id)
    requires GetsOk(s.puts, s.gets, s.items, s.swapping)
    ensures var s' := Last(s, id); GetsOk(s'.puts, s'.gets, s'.items, s'.swapping)
  {
    hide Fetched, LoadChunk;
  }

  /** The owner of the page is woken, and nobody else was waiting for it. */
  lemma LastWaiters(s: Sys, id: Id)
    requires Loading(s, id) && WaitersOk(s.procs, s.blocked, s.items, s.gets)
    ensures var s' := Last(s, id); WaitersOk(s'.procs, s'.blocked, s'.items, s'.gets)
  {
    hide Fetched, LoadChunk;
    var s' := Last(s, id);
    assert Awaits(s.items, s.gets, s.items[id].page.tid, id);
    forall t, i, j | Awaits(s'.items, s'.gets, t, i) && Awaits(s'.items, s'.gets, t, j)
      ensures t in s'.blocked && i == j
    {
      assert Awaits(s.items, s.gets, t, i) && Awaits(s.items, s.gets, t, j);
    }
  }

  lemma LastInv(s: Sys, id: Id)
    requires Inv(s) && Loading(s, id) && s.gets[id].chunk + 1 == CHUNKS
    ensures Inv(Last(s, id))
  {
    hide QueuesOk, TablesOk, FramesOk, MappingsOk, SlotsOk, PutsOk, GetsOk, DirtyOk, CleanOk, LeavingOk,
      ArrivingOk, WaitersOk, LoadChunk, Fetched;
    SamePages(s.procs, s.pt, s.items, Last(s, id).items);
    LastQueues(s, id);
    LoadSlots(s, id);
    LastPuts(s, id);
    LastGets(s, id);
    LastWaiters(s, id);
    LastContents(s, id);
  }

  /** Loading a chunk adds no arrival and ends at most one. */
  ghost predicate Advances(s: Sys, s': Sys, id: Id) {
    && (forall i :: Arriving(s', i) ==>
         Arriving(s, i) && s'.items[i].page == s.items[i].page && s'.items[i].slot == s.items[i].slot)
    && (forall i :: Arriving(s, i) ==> i == id || (Arriving(s', i) && s'.items[i] == s.items[i]))
  }

  lemma LoadAdvances(s: Sys, id: Id)
    requires Loading(s, id)
    ensures Advances(s, Next(s, id), id) && Arriving(Next(s, id), id) && Advances(s, Last(s, id), id)
  {
    hide Fetched, LoadChunk;
  }

  lemma LoadShows(s: Sys, s': Sys, id: Id, m: Flat)
    requires Loading(s, id) && Inv(s) && Shows(s, m)
    requires s' == Next(s, id) || (s' == Last(s, id) && s.gets[id].chunk + 1 == CHUNKS)
    ensures Shows(s', m)
  {
    hide QueuesOk, TablesOk, FramesOk, MappingsOk, SlotsOk, StoresOk, PutsOk, GetsOk, DirtyOk, CleanOk, LeavingOk,
      ArrivingOk, WaitersOk, Refilled, LoadChunk, FlatAt, Zero;
    var p, b := s.items[id].page, LoadChunk(s, id, s.gets[id].reply.value);
    LoadAdvances(s, id);
    NextRefills(s, id);
    LastRefills(s, id);
    LoadedChunk(s, id);
    hide Fetched;
    assert forall q :: q != p && Settled(s', q) ==> Settled(s, q);
    assert SlotShows(s.file, s.items[id].slot, FlatAt(m, p));
    hide ShowsFrames;
    RefillShowsFrames(s, s', p, b, m, m);
  }

  // ----------------------------------------- a read for a page that is gone

  function Forget(s: Sys, id: Id): Sys {
    DropSwapping(s, id).(gets := s.gets - {id})
  }

  lemma ForgetFlights(s: Sys, id: Id)
    requires id in s.gets
    requires PutsOk(s.puts, s.gets, s.items, s.swapping) && GetsOk(s.puts, s.gets, s.items, s.swapping)
    ensures var s' := Forget(s, id); PutsOk(s'.puts, s'.gets, s'.items, s'.swapping)
    ensures var s' := Forget(s, id); GetsOk(s'.puts, s'.gets, s'.items, s'.swapping)
  {
  }

  lemma ForgetWaiters(s: Sys, id: Id)
    requires WaitersOk(s.procs, s.blocked, s.items, s.gets)
    ensures var s' := Forget(s, id); WaitersOk(s'.procs, s'.blocked, s'.items, s'.gets)
  {
    var s' := Forget(s, id);
    forall t, i, j | Awaits(s'.items, s'.gets, t, i) && Awaits(s'.items, s'.gets, t, j)
      ensures t in s.blocked && i == j
    {
      assert Awaits(s.items, s.gets, t, i) && Awaits(s.items, s.gets, t, j);
    }
  }

  lemma ForgetContents(s: Sys, id: Id)
    requires id in s.items && s.items[id].deleted
    requires DirtyOk(s) && CleanOk(s) && LeavingOk(s) && ArrivingOk(s)
    ensures var s' := Forget(s, id); DirtyOk(s') && CleanOk(s') && LeavingOk(s') && ArrivingOk(s')
  {
    hide Saved, Sent, Fetched;
    var s' := Forget(s, id);
    assert forall i :: Live(s'.items, i) <==> Live(s.items, i);
    assert forall i :: Arriving(s', i) <==> Arriving(s, i);
    assert forall i :: Leaving(s', i) <==> Leaving(s, i);
  }

  lemma ForgetInv(s: Sys, id: Id)
    requires Inv(s) && id in s.gets && id in s.items && id in s.swapping && s.items[id].deleted
    ensures Inv(Forget(s, id))
  {
    hide QueuesOk, TablesOk, FramesOk, MappingsOk, SlotsOk, StoresOk, PutsOk, GetsOk, DirtyOk, CleanOk, LeavingOk,
      ArrivingOk, WaitersOk;
    DropQueues(s, id);
    DropDeletedTables(s, id);
    DropDeletedSlots(s, id);
    ForgetFlights(s, id);
    ForgetWaiters(s, id);
    ForgetContents(s, id);
  }

  lemma ForgetShows(s: Sys, id: Id, m: Flat)
    requires id in s.items && s.items[id].deleted && Shows(s, m)
    ensures Shows(Forget(s, id), m)
  {
    hide FlatAt, Zero, SlotShows;
    var s' := Forget(s, id);
    assert forall i :: Live(s'.items, i) <==> Live(s.items, i);
    assert forall i :: Arriving(s', i) <==> Arriving(s, i);
    assert forall q :: Settled(s', q) <==> Settled(s, q);
    hide Settled;
  }

  /** Every chunk read back finds its item and entry, keeps the invariant and is invisible. */
  lemma GetAckInv(s: Sys, id: Id, m: Flat)
    requires Inv(s) && id in s.gets && s.gets[id].reply.Some? && Shows(s, m)
    ensures var r := GetAck(s, id, s.gets[id].reply.value); r.Some? && Inv(r.value) && Shows(r.value, m)
  {
    hide Inv, Shows, LoadChunk, Fetched;
    InSwapping(s, id);
    if s.items[id].deleted {
      ForgetInv(s, id);
      ForgetShows(s, id, m);
    } else {
      LoadingHere(s, id);
      if s.gets[id].chunk + 1 == CHUNKS {
        LastInv(s, id);
        LoadShows(s, Last(s, id), id, m);
      } else {
        NextInv(s, id);
        LoadShows(s, Next(s, id), id, m);
      }
    }
  }

  lemma InSwapping(s: Sys, id: Id)
    requires Inv(s) && id in s.gets
    ensures id in s.swapping && id in s.items
  {
    hide QueuesOk, TablesOk, FramesOk, MappingsOk, SlotsOk, StoresOk, PutsOk, DirtyOk, CleanOk, LeavingOk,
      ArrivingOk, WaitersOk;
  }
}
