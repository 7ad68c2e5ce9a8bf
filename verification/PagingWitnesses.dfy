/**
 Concrete runs of a server with one frame in which deletion, process start and
 wake-up fail: the conditions under which they are correct are not always met.
 */
module PagingWitnesses {
  import opened Seqs
  import opened PagingState
  import opened PagingOps
  import opened PagingDelete
  import opened PagingMachine
  import opened PagingStart
  import opened PagingWaiting

  const F: Frame := 0x1000
  const P: Page := Page(1, 0x2000)
  const Q: Page := Page(2, 0x2000)
  const TOP: Page := Page(1, STACK_TOP_VPN)

  function Files(): map<Slot, Bytes> {
    var zero: Bytes := Zero();
    map x: Slot | 0 <= x < MAX_SWAP_ENTRIES && ValidSlot(x) :: zero
  }

  /** One frame, an empty swap file. */
  function Boot(): Sys {
    Sys({F}, {}, map[], map[], [], [], [F], {}, map[], map[F := Zero()], Files(), map[], map[], {})
  }

  /** After `page` was touched for writing by its process, among the processes `procs`. */
  function Touched(procs: set<Tid>, page: Page): Sys {
    Boot().(procs := procs, free := [], pt := map[page := Resident(F, true)],
            items := map[10 := Item(page, None, 0, None, false)], active := [10], hw := map[page := Mapping(F, true)])
  }

  /** After process 2 touched its own page: page P is on its way out. */
  function Evicting(): Sys {
    Boot().(procs := {1, 2}, free := [], pt := map[P := Resident(F, true)],
            items := map[10 := Item(P, Some(0), PAGESIZE, Some(2), false)], swapping := [10], used := {0},
            puts := Puts(10, 0, Zero()), blocked := {2})
  }

  lemma BootInit()
    ensures Init(Boot())
  {
    assert Elems(Boot().free) == {F};
  }

  lemma Extend(s: Sys, run: seq<Step>, step: Step, t: Sys)
    requires After(s, run).Some? && Enabled(After(s, run).value, step) && Safe(After(s, run).value, step)
    requires Apply(After(s, run).value, step) == Some(t)
    ensures After(s, run + [step]) == Some(t)
  {
    hide Enabled, Safe, Apply;
    assert (run + [step])[..|run + [step]| - 1] == run;
  }

  lemma FirstTouch(procs: set<Tid>, page: Page)
    requires page.vpn != IPC_VPN
    ensures Fault(Boot().(procs := procs), page, true, 10) == Some(Touched(procs, page))
  {
    var s := Boot().(procs := procs);
    assert Top(s.free) == F && s.free[..|s.free| - 1] == [];
    var t := AllocNew(s, page, 10);
    assert t.mem == s.mem && t.active == [10];
    assert t.pt == map[page := Resident(F, true)] && t.items == map[10 := Item(page, None, 0, None, false)];
    assert MapPage(t, page, true).hw == map[page := Mapping(F, true)] && MapPage(t, page, true).pt == t.pt;
  }

  /** A process touches the page at STACK_TOP and is deleted: its mapping survives and shows a free frame. */
  lemma StaleStackTop()
    ensures var run := [Birth(1), Touch(TOP, true, 10)];
      && After(Boot(), run) == Some(Touched({1}, TOP))
      && Enabled(Touched({1}, TOP), Kill(1)) && !Inv(Delete(Touched({1}, TOP), 1))
      && TOP in Delete(Touched({1}, TOP), 1).hw && F in Delete(Touched({1}, TOP), 1).free
  {
    BootInit();
    FirstTouch({1}, TOP);
    hide Inv, Init, Fault, Delete;
    var run := [Birth(1)];
    assert After(Boot(), []) == Some(Boot());
    assert Boot().procs + {1} == {1};
    Extend(Boot(), [], Birth(1), Boot().(procs := {1}));
    assert [] + [Birth(1)] == run;
    Extend(Boot(), run, Touch(TOP, true, 10), Touched({1}, TOP));
    assert run + [Touch(TOP, true, 10)] == [Birth(1), Touch(TOP, true, 10)];
    RunRefines(Boot(), [Birth(1), Touch(TOP, true, 10)]);
    DeleteExact(Touched({1}, TOP), 1);
  }

  /** Page P as the victim: unmapped, with the first slot of the swap file. */
  function Chosen(): Sys {
    Touched({1, 2}, P).(hw := map[], items := map[10 := Item(P, Some(0), 0, None, false)], used := {0})
  }

  lemma SecondVictim()
    ensures Victim(Touched({1, 2}, P)) == Some(Chosen())
  {
    hide Zero, Files;
    var s := Touched({1, 2}, P);
    assert Known(s, s.active);
    assert Referenced(s, 10) && s.active[1..] == [];
    assert ColdIndex(s, s.active[1..]) == 0 && ColdIndex(s, s.active) == 1;
    var r := Rotate(s);
    assert r.active == [10];
    assert PagesOf(s, s.active[..1]) == {P} by { assert 10 in s.active[..1]; }
    assert r.hw == map[];
    assert FirstFree(r.used, 0) == Some(0);
    assert GiveSlot(r, 0) == Chosen();
  }

  lemma SecondTouch()
    ensures Fault(Touched({1, 2}, P), Q, true, 11) == Some(Evicting())
  {
    hide Zero, Files, Victim, Puts;
    SecondVictim();
    var w := WriteOut(Chosen(), 2);
    assert w.items == map[10 := Item(P, Some(0), PAGESIZE, Some(2), false)];
    assert w.puts == Puts(10, 0, Zero());
    assert w == Evicting();
  }

  const Opening := [Birth(1), Birth(2), Touch(P, true, 10), Touch(Q, true, 11)]

  lemma Opened()
    ensures After(Boot(), Opening) == Some(Evicting())
  {
    var one, two := Boot().(procs := {1}), Boot().(procs := {1, 2});
    assert Boot().procs + {1} == {1} && {1} + {2} == {1, 2};
    FirstTouch({1, 2}, P);
    SecondTouch();
    hide Fault;
    assert After(Boot(), []) == Some(Boot());
    Extend(Boot(), [], Birth(1), one);
    assert [] + [Birth(1)] == [Birth(1)];
    Extend(Boot(), [Birth(1)], Birth(2), two);
    assert [Birth(1)] + [Birth(2)] == [Birth(1), Birth(2)];
    OpenedRest(two);
  }

  lemma OpenedRest(two: Sys)
    requires two == Boot().(procs := {1, 2}) && After(Boot(), [Birth(1), Birth(2)]) == Some(two)
    ensures After(Boot(), Opening) == Some(Evicting())
  {
    FirstTouch({1, 2}, P);
    hide Fault, After, Touched, Evicting;
    var run := [Birth(1), Birth(2)];
    Extend(Boot(), run, Touch(P, true, 10), Touched({1, 2}, P));
    assert run + [Touch(P, true, 10)] == [Birth(1), Birth(2), Touch(P, true, 10)];
    LastTouch([Birth(1), Birth(2), Touch(P, true, 10)]);
    assert [Birth(1), Birth(2), Touch(P, true, 10)] + [Touch(Q, true, 11)] == Opening;
  }

  lemma LastTouch(run: seq<Step>)
    requires After(Boot(), run) == Some(Touched({1, 2}, P))
    ensures After(Boot(), run + [Touch(Q, true, 11)]) == Some(Evicting())
  {
    SecondTouch();
    hide Fault, After, Evicting;
    Extend(Boot(), run, Touch(Q, true, 11), Evicting());
  }

  // ---------------------------------------------------------- a lost update

  function Rewritten(): Bytes {
    SetByte(Zero(), 0, 1)
  }

  /** Page P is mapped again and changed while its old contents are on their way out. */
  function Changed(): Sys {
    Evicting().(hw := map[P := Mapping(F, true)], mem := map[F := Rewritten()])
  }

  lemma ChangedSteps()
    ensures Fault(Evicting(), P, true, 12) == Some(Evicting().(hw := map[P := Mapping(F, true)]))
    ensures StoreAt(Evicting().(hw := map[P := Mapping(F, true)]), F, 0, 1) == Some(Changed())
  {
    hide Zero, SetByte;
    var s := Evicting();
    assert MapPage(s, P, true).pt == s.pt;
    assert MapPage(s, P, true).hw == map[P := Mapping(F, true)];
    assert s.mem[F := Rewritten()] == map[F := Rewritten()];
  }

  lemma NotSent()
    ensures !Sent(Changed().puts, Changed().file, Changed().mem, 10, Some(0), F)
  {
    var s := Changed();
    assert Request(10, 0) in s.puts && s.puts[Request(10, 0)].data == Zero()[0];
    assert Rewritten()[0][0] == 1 && Zero()[0][0] == 0;
    assert !ChunkSent(s.puts, 10, s.file[0], s.mem[F], 0);
  }

  const Before := Opening + [Touch(P, true, 12)] + [Store(P, 0, 1)]

  lemma ChangedReached()
    ensures After(Boot(), Before) == Some(Changed()) && Inv(Changed())
  {
    BootInit();
    Opened();
    ChangedSteps();
    hide Inv, Init, Fault, StoreAt, After, Rewritten;
    Extend(Boot(), Opening, Touch(P, true, 12), Evicting().(hw := map[P := Mapping(F, true)]));
    Extend(Boot(), Opening + [Touch(P, true, 12)], Store(P, 0, 1), Changed());
    RunRefines(Boot(), Before);
  }

  /** The requests in flight carry the old contents. */
  lemma ChangedLeaving()
    ensures LoaderPageLeaving(Changed(), 1, 10) && Ends(Changed(), 10, Zero()) && Runs(Changed(), 1)
    ensures !StartSafe(Changed(), 1)
  {
    NotSent();
    hide Zero, Rewritten, Sent;
  }

  lemma {:induction false} QuietLast(run: seq<Step>, more: seq<Step>, p: Page, off: nat)
    requires Quiet(more)
    ensures LastWritten(run + more, p, off) == LastWritten(run, p, off)
  {
    if more == [] {
      assert run + more == run;
    } else {
      var less := more[..|more| - 1];
      assert IsQuiet(more[|more| - 1]);
      assert (run + more)[..|run + more| - 1] == run + less && (run + more)[|run + more| - 1] == more[|more| - 1];
      QuietLast(run, less, p, off);
    }
  }

  lemma WrittenLast()
    ensures LastWritten(Before + [Exec(1)], P, 0) == 1
  {
    var early := Opening + [Touch(P, true, 12)];
    assert Before[..|Before| - 1] == early && Before[|Before| - 1] == Store(P, 0, 1);
    assert LastWritten(Before, P, 0) == 1;
    var run := Before + [Exec(1)];
    assert run[..|run| - 1] == Before && run[|run| - 1] == Exec(1);
    assert !Within(P, 1, HEAP_START_VPN, HEAP_END_VPN);
  }

  /**
   The changed page, start_process, and then nothing but the server at work and the process
   faulting its page back in: it reads 0 where it last wrote 1.
   */
  lemma LostUpdate() returns (run: seq<Step>, r: Sys)
    ensures After(Boot(), Before) == Some(Changed()) && Enabled(Changed(), Exec(1))
    ensures Quiet(run) && After(Start(Changed(), 1), run) == Some(r)
    ensures Enabled(r, Load(P, 0)) && Seen(r, P, 0) == Some(0)
    ensures LastWritten(Before + [Exec(1)] + run, P, 0) == 1
  {
    ChangedReached();
    ChangedLeaving();
    WrittenLast();
    assert Changed().items[10].page == P;
    hide Inv, After, LastWritten, Start, Changed, Zero, Ends, LoaderPageLeaving;
    run, r := StaleRead(Changed(), 1, 10, Zero());
    QuietLast(Before + [Exec(1)], run, P, 0);
  }

  // ------------------------------------------------------- a stranded thread

  /** Thread 2 waits for item 10, whose page is gone and whose chunks from `k` on are outstanding. */
  predicate Draining(s: Sys, k: nat) {
    && k < CHUNKS && 10 in s.items && s.items[10].deleted && s.items[10].initiator == Some(2) &&
       s.items[10].page !in s.hw
    && s.items[10].toSwap == BATCH_SIZE * (CHUNKS - k)
    && forall j: nat :: k <= j < CHUNKS ==> Request(10, j) in s.puts
  }

  /** The server carries out and acknowledges the chunks from `k` on. */
  function Acks(k: nat): seq<Step>
    requires k <= CHUNKS
    decreases CHUNKS - k
  {
    if k == CHUNKS then [] else [ServerWrites(Request(10, k))] + [WriteAcked(Request(10, k))] + Acks(k + 1)
  }

  lemma KilledDrains()
    ensures Draining(Delete(Evicting(), 1), 0) && DeleteSafe(Evicting(), 1)
  {
    var s := Evicting();
    var u := UnmapRange(s, 1, 0, STACK_TOP_VPN);
    hide FreeFrames, Zero;
    assert ActiveWithin(u, 1, 0, ALL_PAGES) == {};
    assert Within(P, 1, 0, ALL_PAGES);
  }

  lemma CanServe(s: Sys, r: Request)
    requires Inv(s) && r in s.puts
    ensures r.chunk < CHUNKS && s.puts[r].slot in s.file
  {
    hide QueuesOk, TablesOk, FramesOk, MappingsOk, GetsOk, DirtyOk, CleanOk, LeavingOk, ArrivingOk, WaitersOk;
    assert OwnsSlot(s.items, r.id, s.puts[r].slot);
  }

  /** Serving a chunk changes neither the item nor the set of outstanding chunks. */
  lemma ServeStep(s: Sys, k: nat)
    requires Draining(s, k) && s.puts[Request(10, k)].slot in s.file
    ensures Enabled(s, ServerWrites(Request(10, k)))
    ensures Enabled(ServePut(s, Request(10, k)), WriteAcked(Request(10, k))) && Draining(ServePut(s, Request(10, k)), k)
  {
  }

  lemma AckStep(s: Sys, k: nat)
    requires Draining(s, k) && PutAck(s, Request(10, k)).Some?
    ensures k + 1 < CHUNKS ==> Draining(PutAck(s, Request(10, k)).value, k + 1)
    ensures k + 1 == CHUNKS ==> Strands(s, WriteAcked(Request(10, k)), 2)
  {
    if k + 1 < CHUNKS {
      var c := CountAck(s, Request(10, k));
      assert c.items[10].toSwap == BATCH_SIZE * (CHUNKS - k - 1) > 0;
      hide FinishPut, EntryFound;
      assert PutAck(s, Request(10, k)) == Some(c);
    }
  }

  /** One chunk served and acknowledged: the next one is due, or thread 2 is stranded. */
  lemma OneAck(run: seq<Step>, s: Sys, k: nat) returns (t: Sys)
    requires Init(Boot()) && After(Boot(), run) == Some(s) && Draining(s, k)
    ensures After(Boot(), run + [ServerWrites(Request(10, k))] + [WriteAcked(Request(10, k))]) == Some(t)
    ensures if k + 1 < CHUNKS then Draining(t, k + 1) else Orphan(t, 2)
  {
    assert k < CHUNKS;
    hide Inv, Shows, Init, After, Draining, Enabled, Strands, Orphan, ServePut, PutAck, Safe, Apply;
    var r := Request(10, k);
    var s1 := OneWrite(run, s, k);
    var served := run + [ServerWrites(r)];
    RunRefines(Boot(), served);
    Harmless(s1, r);
    AckStep(s1, k);
    t := PutAck(s1, r).value;
    Extend(Boot(), served, WriteAcked(r), t);
    if k + 1 == CHUNKS {
      OrphanExact(s1, WriteAcked(r), 2, FlatAfter(served));
    }
  }

  lemma OneWrite(run: seq<Step>, s: Sys, k: nat) returns (t: Sys)
    requires Init(Boot()) && After(Boot(), run) == Some(s) && Draining(s, k)
    ensures After(Boot(), run + [ServerWrites(Request(10, k))]) == Some(t)
    ensures Draining(t, k) && Enabled(t, WriteAcked(Request(10, k)))
  {
    var r := Request(10, k);
    assert r in s.puts && r.chunk < CHUNKS;
    hide Inv, Shows, Init, After, Draining, Enabled, ServePut, Safe, Apply;
    RunRefines(Boot(), run);
    CanServe(s, r);
    ServeStep(s, k);
    t := ServePut(s, r);
    Harmless(s, r);
    Extend(Boot(), run, ServerWrites(r), t);
  }

  lemma AcksSplit(run: seq<Step>, k: nat)
    requires k < CHUNKS
    ensures run + Acks(k) == run + [ServerWrites(Request(10, k))] + [WriteAcked(Request(10, k))] + Acks(k + 1)
    ensures k + 1 == CHUNKS ==> run + Acks(k) == run + [ServerWrites(Request(10, k))] + [WriteAcked(Request(10, k))]
  {
    var a, b, rest := [ServerWrites(Request(10, k))], [WriteAcked(Request(10, k))], Acks(k + 1);
    assert Acks(k) == a + b + rest;
    assert k + 1 == CHUNKS ==> rest == [];
    hide Acks;
  }

  lemma {:induction false} AcksStrand(run: seq<Step>, s: Sys, k: nat)
    requires Init(Boot()) && After(Boot(), run) == Some(s) && Draining(s, k)
    ensures var t := After(Boot(), run + Acks(k)); t.Some? && Orphan(t.value, 2)
    decreases CHUNKS - k
  {
    hide Init, Boot, After, Orphan;
    assert k < CHUNKS;
    var acked := run + [ServerWrites(Request(10, k))] + [WriteAcked(Request(10, k))];
    AcksSplit(run, k);
    hide Draining, Acks;
    var t := OneAck(run, s, k);
    if k + 1 < CHUNKS {
      AcksStrand(acked, t, k + 1);
    }
  }

  lemma Harmless(s: Sys, r: Request)
    ensures Safe(s, ServerWrites(r)) && Safe(s, WriteAcked(r))
    ensures Enabled(s, ServerWrites(r)) ==> Apply(s, ServerWrites(r)) == Some(ServePut(s, r))
    ensures Enabled(s, WriteAcked(r)) ==> Apply(s, WriteAcked(r)) == PutAck(s, r)
  {
    hide PutAck, ServePut;
  }

  /**
   Process 2 evicts a page of process 1, process 1 is deleted, and the eight chunks are
   acknowledged: nothing will ever wake process 2 again.
   */
  lemma StrandedRun()
    ensures var t := After(Boot(), Opening + [Kill(1)] + Acks(0)); t.Some? && Orphan(t.value, 2)
  {
    BootInit();
    Opened();
    KilledDrains();
    hide Init, After, Delete, Draining, Orphan;
    Extend(Boot(), Opening, Kill(1), Delete(Evicting(), 1));
    AcksStrand(Opening + [Kill(1)], Delete(Evicting(), 1), 0);
  }
}
