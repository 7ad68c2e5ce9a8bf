/**
 What delete_process does to the memory that processes read. It leaves the page at
 STACK_TOP mapped while its frame is freed. The condition DeleteSafe is shown to be
 exactly the condition under which every later read is right.
 */
module PagingKill {
  import opened Seqs
  import opened PagingState
  import opened PagingOps
  import opened PagingDelete
  import opened PagingMachine
  import opened PagingStart

  // ------------------------------------------------------ the frame freed last

  lemma {:induction false} NoneAbove(free: seq<Frame>, pt: map<Page, Pte>, t: Tid, lo: nat, mid: nat, hi: nat)
    requires lo <= mid <= hi && forall v: nat :: mid <= v < hi ==> !InFrame(pt, Page(t, v))
    ensures FreeFrames(free, pt, t, lo, hi) == FreeFrames(free, pt, t, lo, mid)
    decreases hi
  {
    if mid < hi {
      NoneAbove(free, pt, t, lo, mid, hi - 1);
    }
  }

  /** The pages are freed in address order, so the frame of the page at STACK_TOP ends up on top. */
  lemma StackTopLast(s: Sys, t: Tid)
    requires Inv(s) && !DeleteSafe(s, t)
    ensures var d := Delete(s, t); d.free != [] && Top(d.free) == s.hw[Page(t, STACK_TOP_VPN)].frame
  {
    hide QueuesOk, SlotsOk, StoresOk, PutsOk, GetsOk, DirtyOk, CleanOk, LeavingOk, ArrivingOk, WaitersOk;
    var p := Page(t, STACK_TOP_VPN);
    var f := s.hw[p].frame;
    assert ResidentAt(s.pt, p, f);
    NoneAbove(s.free, s.pt, t, 0, STACK_TOP_VPN + 1, ALL_PAGES);
    var below := FreeFrames(s.free, s.pt, t, 0, STACK_TOP_VPN);
    if f in below {
      FreeFramesExact(s.free, s.pt, t, 0, STACK_TOP_VPN, f);
    }
    assert FreeFrames(s.free, s.pt, t, 0, STACK_TOP_VPN + 1) == below + [f];
  }

  // ------------------------------------------------------- the wrong read

  /** A page the process born next can touch: its frame is the one on top of the stack. */
  lemma TouchedPage(s: Sys, p: Page, id: Id)
    requires p !in s.pt && s.free != [] && p.vpn != IPC_VPN
    ensures Fault(s, p, true, id).Some?
    ensures var r := Fault(s, p, true, id).value;
      && r.procs == s.procs && r.blocked == s.blocked
      && r.hw == s.hw[p := Mapping(Top(s.free), true)] && Top(s.free) in r.mem
  {
    hide Zero;
  }

  lemma StoredByte(s: Sys, f: Frame, off: nat, b: Byte)
    requires f in s.mem && off < PAGESIZE
    ensures var r := StoreByte(s, f, off, b);
      && r.procs == s.procs && r.blocked == s.blocked && r.hw == s.hw && f in r.mem && ByteAt(r.mem[f], off) == b
  {
    SetByteAt(s.mem[f], off, b, off);
    hide ByteAt, SetByte;
  }

  /** A process is born with the number of the one deleted, touches its first page and stores a byte there. */
  function Reborn(t: Tid, id: Id): seq<Step> {
    [Birth(t), Touch(Page(t, 0), true, id), Store(Page(t, 0), 0, 1)]
  }

  lemma Three(u: Sys, a: Step, b: Step, c: Step, u1: Sys, u2: Sys, u3: Sys)
    requires !a.Kill? && !a.Exec? && Enabled(u, a) && Apply(u, a) == Some(u1)
    requires !b.Kill? && !b.Exec? && Enabled(u1, b) && Apply(u1, b) == Some(u2)
    requires !c.Kill? && !c.Exec? && Enabled(u2, c) && Apply(u2, c) == Some(u3)
    ensures After(u, [a, b, c]) == Some(u3)
  {
    hide Enabled, Apply;
    assert [a][..0] == [] && [a, b][..1] == [a] && [a, b, c][..2] == [a, b];
    assert After(u, []) == Some(u);
    assert After(u, [a]) == Some(u1);
    assert After(u, [a, b]) == Some(u2);
  }

  /** In the flat memory the page at STACK_TOP stays empty. */
  lemma RebornFlat(m: Flat, t: Tid, id: Id)
    ensures FlatAt(FlatFrom(FlatStep(m, Kill(t)), Reborn(t, id)), Page(t, STACK_TOP_VPN)) == Zero()
  {
    hide Zero, SetByte;
    var n, run := FlatStep(m, Kill(t)), Reborn(t, id);
    FreedFlat(m, t, 0, ALL_PAGES);
    assert run[..2] == [run[0], run[1]] && run[..2][..1] == [run[0]] && [run[0]][..0] == [];
    assert FlatFrom(n, []) == n && FlatFrom(n, [run[0]]) == n && FlatFrom(n, run[..2]) == n;
  }

  lemma ZeroByte(off: nat)
    requires off < PAGESIZE
    ensures ByteAt(Zero(), off) == 0
  {
  }

  /** When delete_process is not safe, the next process with that number reads its own store through the old mapping. */
  lemma DeleteLoses(s: Sys, t: Tid, m: Flat) returns (run: seq<Step>)
    requires Inv(s) && !DeleteSafe(s, t)
    ensures !ReadsRight(Delete(s, t), FlatStep(m, Kill(t)), run, Page(t, STACK_TOP_VPN), 0)
  {
    hide Inv, Fault, StoreByte, FlatStep, FlatFrom, FlatAt, Zero, ByteAt, After;
    var d, top, p := Delete(s, t), Page(t, STACK_TOP_VPN), Page(t, 0);
    var id := FreshId(d.items.Keys);
    StackTopLast(s, t);
    StaleMapping(s, t);
    DeletedFacts(s, t, p);
    hide Delete, DeleteSafe;
    var d1 := Create(d, t);
    TouchedPage(d1, p, id);
    var d2 := Fault(d1, p, true, id).value;
    StoredByte(d2, Top(d.free), 0, 1);
    var d3 := StoreByte(d2, Top(d.free), 0, 1);
    run := Reborn(t, id);
    Three(d, run[0], run[1], run[2], d1, d2, d3);
    assert run == [run[0], run[1], run[2]];
    assert Enabled(d3, Load(top, 0)) && Seen(d3, top, 0) == Some(1);
    RebornFlat(m, t, id);
    ZeroByte(0);
  }

  lemma DeletedFacts(s: Sys, t: Tid, p: Page)
    requires p.tid == t && p.vpn < ALL_PAGES
    ensures var d := Delete(s, t); t !in d.procs && t !in d.blocked && p !in d.pt
    ensures Page(t, STACK_TOP_VPN) in s.hw ==>
      Page(t, STACK_TOP_VPN) in Delete(s, t).hw &&
        Delete(s, t).hw[Page(t, STACK_TOP_VPN)] == s.hw[Page(t, STACK_TOP_VPN)]
  {
    hide FreeFrames;
  }

  /**
   delete_process is safe exactly if after it every read in every continuation gives the byte of
   the flat memory, the process's own having been cleared.
   */
  lemma DeleteReadsExact(s: Sys, t: Tid, m: Flat)
    requires Inv(s) && Shows(s, m)
    ensures DeleteSafe(s, t) <==> forall run, p, off :: ReadsRight(Delete(s, t), FlatStep(m, Kill(t)), run, p, off)
  {
    hide Inv, Shows, Delete, DeleteSafe, FlatStep, After, Seen, Enabled;
    if DeleteSafe(s, t) {
      KillRefines(s, t, m);
      forall run, p, off
        ensures ReadsRight(Delete(s, t), FlatStep(m, Kill(t)), run, p, off)
      {
        ReadsFlat(Delete(s, t), FlatStep(m, Kill(t)), run, p, off);
      }
    } else {
      var run := DeleteLoses(s, t, m);
      assert !ReadsRight(Delete(s, t), FlatStep(m, Kill(t)), run, Page(t, STACK_TOP_VPN), 0);
    }
  }

  lemma KillRefines(s: Sys, t: Tid, m: Flat)
    requires Inv(s) && Shows(s, m) && DeleteSafe(s, t)
    ensures Inv(Delete(s, t)) && Shows(Delete(s, t), FlatStep(m, Kill(t)))
  {
    hide Inv, Shows, Delete, DeleteSafe;
    DeleteInv(s, t);
    DeleteShows(s, t, m);
  }

  /** The same for every reachable state, with the memory its run has written. */
  lemma DeleteReadsReachable(s: Sys, run: seq<Step>, t: Tid)
    requires Init(s) && After(s, run).Some?
    ensures var r := After(s, run).value;
      DeleteSafe(r, t) <==> forall more, p, off ::
        ReadsRight(Delete(r, t), FlatStep(FlatAfter(run), Kill(t)), more, p, off)
  {
    hide Inv, Shows, Init, After, Delete, DeleteSafe, FlatStep, ReadsRight;
    RunRefines(s, run);
    DeleteReadsExact(After(s, run).value, t, FlatAfter(run));
  }
}
