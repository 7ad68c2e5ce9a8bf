/**
 What each call to the kernel does for the process that makes it, and that it does
 nothing to any other: who may read and write what, when a call is issued, and when a
 wait begins and ends.
 */
module Calls {
  import opened Seqs
  import opened Lifetimes

  /** The handle process `p` has open as `fd`. */
  function Behind(s: Os, p: Pid, fd: nat): Option<Handle> {
    var k := Slot(p, fd);
    if k in s.files && s.files[k] in s.handles then Some(s.handles[s.files[k]]) else None
  }

  // ------------------------------------------------------------ read and write

  /** An NFS call through `fd` is on its way; the process is blocked on it, and nothing else has changed. */
  predicate Issued(s: Os, t: Os, p: Pid, fd: nat, toRead: nat) {
    && Slot(p, fd) in s.files && s.files[Slot(p, fd)] in s.handles
    && var id := s.files[Slot(p, fd)];
       t == s.(pending := s.pending + multiset{id}, blocked := s.blocked[p := OnReply(fd, id)],
               handles := s.handles[id := s.handles[id].(awaits := true, toRead := toRead)])
  }

  /** A write to a file open for writing is issued; the console is written at once; all else is refused. */
  predicate Written(s: Os, t: Os, p: Pid, fd: nat) {
    match Behind(s, p, fd)
    case None => t == s
    case Some(h) => if h.file.Nfs? && h.mode.write then Issued(s, t, p, fd, h.toRead) else t == s
  }

  /** The process waits for console input through `fd`. */
  predicate AwaitsInput(s: Os, t: Os, p: Pid, fd: nat, n: nat) {
    && Slot(p, fd) in s.files && s.files[Slot(p, fd)] in s.handles
    && var id := s.files[Slot(p, fd)];
       t == s.(blocked := s.blocked[p := OnInput(fd, id)], handles := s.handles[id := s.handles[id].(toRead := n)])
  }

  /** A read is issued, waits for input or is answered at once, but only through a handle open for reading. */
  predicate ReadDone(s: Os, t: Os, p: Pid, fd: nat, n: nat, input: bool) {
    match Behind(s, p, fd)
    case None => t == s
    case Some(h) =>
      if !h.mode.read then t == s
      else if h.file.Nfs? then Issued(s, t, p, fd, n)
      else if input && n > 0 then t == s
      else AwaitsInput(s, t, p, fd, n)
  }

  lemma WriteExact(s: Os, p: Pid, fd: nat)
    requires Inv(s) && Enabled(s, p)
    ensures Written(s, Step(s, EvWrite(p, fd)), p, fd)
  {
    hide PendingOk, ExpectedOk, OrphansOk, AnsweredOk, ConsoleOk, InputOk, WaitsOk;
  }

  lemma ReadExact(s: Os, p: Pid, fd: nat, n: nat, input: bool)
    requires Inv(s) && Enabled(s, p)
    ensures ReadDone(s, Step(s, EvRead(p, fd, n, input)), p, fd, n, input)
  {
    hide PendingOk, ExpectedOk, OrphansOk, AnsweredOk, ConsoleOk, WaitsOk;
    var k := Slot(p, fd);
    if Behind(s, p, fd).Some? && s.handles[s.files[k]].file.Console? {
      assert s.handles[s.files[k]].toRead == 0;
      assert s.handles[s.files[k] := s.handles[s.files[k]].(toRead := 0)] == s.handles;
    }
  }

  /** Descriptor `fd` of `p` is the first with a console read under way. */
  predicate FirstReading(s: Os, p: Pid, fd: nat) {
    && fd < PROCESS_MAX_FILES && Reading(s, Slot(p, fd))
    && forall i: nat :: i < fd ==> !Reading(s, Slot(p, i))
  }

  ghost predicate ReadsNow(s: Os, p: Pid) {
    exists fd :: FirstReading(s, p, fd)
  }

  /** The read through `fd` is over, and its process goes on. */
  predicate InputGiven(s: Os, t: Os, p: Pid, fd: nat) {
    && Reading(s, Slot(p, fd))
    && var id := s.files[Slot(p, fd)];
       t == s.(handles := s.handles[id := s.handles[id].(toRead := 0)], blocked := s.blocked - {p})
  }

  /** A complete line goes to the recorded reader if it has a read under way; other input is only stored. */
  ghost predicate Received(s: Os, t: Os, complete: bool) {
    if complete && s.reader.Some? && ReadsNow(s, s.reader.value)
    then exists fd :: FirstReading(s, s.reader.value, fd) && InputGiven(s, t, s.reader.value, fd)
    else t == s
  }

  lemma {:induction false} ReadingIs(s: Os, p: Pid, from: nat)
    requires from <= PROCESS_MAX_FILES && forall i: nat :: i < from ==> !Reading(s, Slot(p, i))
    ensures if ReadingFrom(s, p, from).Some? then FirstReading(s, p, ReadingFrom(s, p, from).value) else !ReadsNow(s, p)
    decreases PROCESS_MAX_FILES - from
  {
    hide Reading;
    if from < PROCESS_MAX_FILES && !Reading(s, Slot(p, from)) {
      ReadingIs(s, p, from + 1);
    }
  }

  lemma ReceiveExact(s: Os, complete: bool)
    requires Inv(s)
    ensures Received(s, Step(s, EvReceive(complete)), complete)
  {
    hide PendingOk, ExpectedOk, OrphansOk, AnsweredOk, InputOk, WaitsOk;
    if s.reader.Some? {
      ReadingIs(s, s.reader.value, 0);
      ReaderRuns(s);
    }
    hide ReadingFrom, ConsoleOk;
  }

  lemma ReaderRuns(s: Os)
    requires Inv(s) && s.reader.Some?
    ensures s.reader.value in s.active
  {
  }

  // ---------------------------------------------------------------------- open

  /** Entry `fd` is the lowest free one of process `p`. */
  predicate Lowest(s: Os, p: Pid, fd: nat) {
    && fd < PROCESS_MAX_FILES && Slot(p, fd) !in s.files
    && forall i: nat :: i < fd ==> Slot(p, i) in s.files
  }

  ghost predicate HasFree(s: Os, p: Pid) {
    exists fd :: Lowest(s, p, fd)
  }

  /** Handle `id` now stands for `file` in the lowest free entry of `p`, with exactly the rights `mode`. */
  ghost predicate NowOpen(s: Os, t: Os, p: Pid, file: File, mode: Mode, id: Id, reader: Option<Pid>) {
    exists fd :: Lowest(s, p, fd) &&
      t == s.(files := s.files[Slot(p, fd) := id], handles := s.handles[id := Handle(file, p, mode, false, 0)],
              reader := reader)
  }

  lemma {:induction false} LowestIs(s: Os, p: Pid, from: nat)
    requires from <= PROCESS_MAX_FILES && forall i: nat :: i < from ==> Slot(p, i) in s.files
    ensures if FreeFrom(s, p, from).Some? then Lowest(s, p, FreeFrom(s, p, from).value) else !HasFree(s, p)
    decreases PROCESS_MAX_FILES - from
  {
    if from < PROCESS_MAX_FILES && Slot(p, from) in s.files {
      LowestIs(s, p, from + 1);
    }
  }

  /** An NFS file opens exactly if an entry is free and the file permits every right asked for. */
  ghost predicate NfsOpened(s: Os, t: Os, p: Pid, file: nat, mode: Mode, allowed: Mode, id: Id) {
    if HasFree(s, p) && (mode.read ==> allowed.read) && (mode.write ==> allowed.write)
    then NowOpen(s, t, p, Nfs(file), mode, id, s.reader) else t == s
  }

  /** The console opens exactly if an entry is free and, for reading, nobody else reads it. */
  ghost predicate ConsoleOpened(s: Os, t: Os, p: Pid, mode: Mode, id: Id) {
    if HasFree(s, p) && (mode.read ==> s.reader == None || s.reader == Some(p))
    then NowOpen(s, t, p, Console, mode, id, if mode.read then Some(p) else s.reader) else t == s
  }

  lemma OpenNfsExact(s: Os, p: Pid, file: nat, mode: Mode, allowed: Mode, id: Id)
    ensures NfsOpened(s, OpenNfs(s, p, file, mode, allowed, id), p, file, mode, allowed, id)
  {
    LowestIs(s, p, 0);
    hide FreeFrom, Lowest;
  }

  lemma OpenConsoleExact(s: Os, p: Pid, mode: Mode, id: Id)
    ensures ConsoleOpened(s, OpenSerial(s, p, mode, id), p, mode, id)
  {
    LowestIs(s, p, 0);
    hide FreeFrom, Lowest;
  }

  // --------------------------------------------------------------------- close

  /** The entry and its handle are gone; the console has no reader once its last reading handle is. */
  ghost predicate Closed(s: Os, t: Os, p: Pid, fd: nat) {
    var k := Slot(p, fd);
    if k !in s.files then t == s
    else
      && t == s.(files := s.files - {k}, handles := s.handles - {s.files[k]}, reader := t.reader)
      && t.reader == if s.reader == Some(p) && !HasReader(t, p) then None else s.reader
  }

  lemma CloseExact(s: Os, p: Pid, fd: nat)
    requires Inv(s) && Enabled(s, p)
    ensures Closed(s, Step(s, EvClose(p, fd)), p, fd)
  {
    hide PendingOk, ExpectedOk, OrphansOk, AnsweredOk, InputOk, WaitsOk;
    var k, t := Slot(p, fd), CloseFile(s, p, fd);
    if k in s.files {
      assert s.files[k] in s.handles;
      forall l: Slot | l.pid == p
        ensures Reads(t, l) <==> Reads(s, l) && l != k
      {
        ReadsAfterClose(s, p, fd, l);
      }
      if s.reader == Some(p) {
        var l: Slot :| Reads(s, l) && l.pid == p;
        assert l == k || Reads(t, l);
      }
    }
  }

  lemma ReadsAfterClose(s: Os, p: Pid, fd: nat, l: Slot)
    requires TablesOk(s) && p in s.active && Slot(p, fd) in s.files && l.pid == p
    ensures Reads(CloseFile(s, p, fd), l) <==> Reads(s, l) && l != Slot(p, fd)
  {
    hide LastReader;
  }

  // ---------------------------------------------------------------------- wait

  /** There is something to wait for: any process, or one that runs. */
  predicate Awaitable(s: Os, target: Target) {
    target == Anyone || (target.pid < MAX_RUNNING_PROCESS && target.pid in s.active)
  }

  /** The process waits for exactly `target`, or nothing has changed. */
  predicate WaitBegun(s: Os, t: Os, p: Pid, target: Target) {
    if Awaitable(s, target) then t == s.(waitFor := s.waitFor[p := target], blocked := s.blocked[p := OnExit])
    else t == s
  }

  lemma WaitExact(s: Os, p: Pid, target: Target)
    requires Enabled(s, p)
    ensures WaitBegun(s, Step(s, EvWait(p, target)), p, target)
  {
  }

  /** Events that end neither `q` nor what it waits for. */
  predicate NoEnd(es: seq<Event>, q: Pid, target: Target) {
    forall i :: 0 <= i < |es| && es[i].EvKill? && es[i].victim != 0 ==>
      es[i].victim != q && target.Only? && es[i].victim != target.pid
  }

  /** A wait lasts over every run in which neither the waiting process nor one it waits for ends. */
  lemma {:induction false} WaitLasts(s: Os, es: seq<Event>, q: Pid)
    requires Inv(s) && PossibleRun(s, es) && q in s.active && q in s.waitFor && NoEnd(es, q, s.waitFor[q])
    ensures StillWaits(s, Run(s, es), q)
    decreases |es|
  {
    hide Inv, Step, Possible;
    WaiterBlocked(s, q);
    if es != [] {
      StepKeeps(s, es[0]);
      WaitStep(s, es[0], q);
      assert forall i :: 0 <= i < |es[1..]| ==> es[1..][i] == es[i + 1];
      WaitLasts(Step(s, es[0]), es[1..], q);
    }
  }

  lemma WaiterBlocked(s: Os, q: Pid)
    requires Inv(s) && q in s.active && q in s.waitFor
    ensures q in s.blocked && s.blocked[q].OnExit?
  {
    hide TablesOk, PendingOk, ExpectedOk, OrphansOk, AnsweredOk, ConsoleOk, InputOk;
  }

  lemma WaitStep(s: Os, e: Event, q: Pid)
    requires Inv(s) && Possible(s, e) && q in s.active && q in s.waitFor
    requires e.EvKill? && e.victim != 0 ==> e.victim != q && s.waitFor[q].Only? && e.victim != s.waitFor[q].pid
    ensures StillWaits(s, Step(s, e), q)
  {
    hide Inv, Possible;
    WaitsUntilExit(s, e, q);
    if e == EvKill(0) {
      KillExact(s, 0);
      WaiterBlocked(s, q);
    }
    hide Step;
  }

  /**
   A process that waits for a child that runs goes on when the child ends and not before, whatever
   else happens.
   */
  lemma WaitForChild(s: Os, p: Pid, q: Pid, es: seq<Event>)
    requires Inv(s) && Enabled(s, p) && q in s.active && q != 0 && q != p && p != 0
    requires PossibleRun(Step(s, EvWait(p, Only(q))), es) && NoEnd(es, p, Only(q))
    ensures var t := Run(Step(s, EvWait(p, Only(q))), es);
      && p in t.blocked && p in t.waitFor && t.waitFor[p] == Only(q) && q in t.active
      && Enabled(Step(t, EvKill(q)), p)
  {
    var w := Step(s, EvWait(p, Only(q)));
    ActiveBelow(s, q);
    WaitExact(s, p, Only(q));
    StepKeeps(s, EvWait(p, Only(q)));
    hide Inv, Wait;
    WaitLasts(w, es, p);
    RunKeeps(w, es);
    var t := Run(w, es);
    TargetRuns(t, p);
    WaitsUntilExit(t, EvKill(q), p);
  }

  lemma ActiveBelow(s: Os, q: Pid)
    requires Inv(s) && q in s.active
    ensures q < MAX_RUNNING_PROCESS
  {
  }

  lemma TargetRuns(s: Os, p: Pid)
    requires Inv(s) && p in s.active && p in s.waitFor && s.waitFor[p].Only?
    ensures s.waitFor[p].pid in s.active
  {
  }

  // -------------------------------------------------------- creation and deletion

  /** Process `p` is new: it runs, and its only open file is the console, for writing. */
  ghost predicate Born(s: Os, t: Os, p: Pid, id: Id) {
    && p !in s.active && p != 0 && p < MAX_RUNNING_PROCESS && t.active == s.active + {p}
    && Enabled(t, p) && p !in t.waitFor
    && (forall k: Slot :: k.pid == p ==> (k in t.files <==> k.fd == 0))
    && Behind(t, p, 0).Some? && t.files[Slot(p, 0)] == id
    && var h := Behind(t, p, 0).value; h.file == Console && h.owner == p && h.mode == Mode(false, true)
  }

  /** A process is created exactly if an entry is free; else only the counter changes. */
  ghost predicate Created(s: Os, t: Os, id: Id) {
    if exists q: Pid :: q < MAX_RUNNING_PROCESS && q !in s.active
    then exists p: Pid :: Born(s, t, p, id)
    else t == s.(nextTask := t.nextTask)
  }

  lemma CreateExact(s: Os, id: Id, garbage: bool)
    requires Inv(s) && 0 in s.active && id !in s.handles
    ensures Created(s, Step(s, EvCreate(id, garbage)), id)
  {
    AllocateExact(s);
    hide Inv, Allocate, Enter, Born;
    if Allocate(s).0.Some? {
      EnterBorn(s, Allocate(s).0.value, id, garbage, Allocate(s).1);
      assert Born(s, Step(s, EvCreate(id, garbage)), Allocate(s).0.value, id);
    }
  }

  lemma EnterBorn(s: Os, p: Pid, id: Id, garbage: bool, next: nat)
    requires p !in s.active && p != 0 && p < MAX_RUNNING_PROCESS
    ensures Born(s, Enter(s, p, id, garbage).(nextTask := next), p, id)
  {
  }

  /** While the counter's entry is free, two processes created in a row never get the same number. */
  lemma NumbersDiffer(s: Os, t: Os)
    requires s.nextTask < MAX_RUNNING_PROCESS && s.nextTask !in s.active
    requires t.nextTask == Allocate(s).1 < MAX_RUNNING_PROCESS && t.nextTask !in t.active
    ensures Allocate(s).0.Some? && Allocate(t).0.Some? && Allocate(s).0 != Allocate(t).0
  {
  }

  /** The handle in entry `k` stays until its callback, which will free it. */
  predicate Orphaned(s: Os, t: Os, k: Slot) {
    && k in s.files && k in t.files && t.files[k] == s.files[k] && s.files[k] in s.handles
    && s.files[k] in t.handles && t.handles[s.files[k]] == s.handles[s.files[k]].(awaits := false)
  }

  /** Process `p` has ended: see to its table, its handles and the console. */
  ghost predicate Ended(s: Os, t: Os, p: Pid) {
    && t.active == s.active - {p} && p !in t.blocked && t.pending == s.pending && t.nextTask == s.nextTask
    && t.reader == (if s.reader == Some(p) then None else s.reader)
    && (forall k: Slot :: k.pid == p && k in s.files && s.files[k] in s.handles ==>
          var id := s.files[k];
          if s.handles[id].awaits then Orphaned(s, t, k) else id !in t.handles && k !in t.files)
  }

  lemma KillExact(s: Os, p: Pid)
    requires Inv(s)
    ensures if p in s.active && p != 0 then Ended(s, Step(s, EvKill(p)), p) else Step(s, EvKill(p)) == s
  {
    hide PendingOk, ExpectedOk, OrphansOk, AnsweredOk, InputOk, WaitsOk;
    if p in s.active && p != 0 {
      KillReader(s, p);
      forall k: Slot | k.pid == p && k in s.files && s.files[k] in s.handles
        ensures var id, t := s.files[k], Kill(s, p);
          if s.handles[id].awaits then Orphaned(s, t, k) else id !in t.handles && k !in t.files
      {
        KillHandle(s, p, k);
      }
    }
  }

  lemma KillReader(s: Os, p: Pid)
    requires Inv(s) && p in s.active && p != 0
    ensures Kill(s, p).reader == if s.reader == Some(p) then None else s.reader
  {
    hide PendingOk, ExpectedOk, OrphansOk, AnsweredOk, InputOk, WaitsOk, StillWaiting, StillBlocked, StillOpen,
      StillAllocated;
    if s.reader == Some(p) {
      var k: Slot :| Reads(s, k) && k.pid == p;
      assert Frees(s, k);
    }
  }

  lemma KillHandle(s: Os, p: Pid, k: Slot)
    requires TablesOk(s) && p in s.active && p != 0 && k.pid == p && k in s.files && s.files[k] in s.handles
    ensures var id, t := s.files[k], Kill(s, p);
      if s.handles[id].awaits then Orphaned(s, t, k) else id !in t.handles && k !in t.files
  {
    hide StillWaiting, StillBlocked, ClearsReader;
    assert Frees(s, k) <==> !s.handles[s.files[k]].awaits;
    if s.handles[s.files[k]].awaits {
      assert !IsFreed(s, p, s.files[k]) && IsOpen(s, p, s.files[k]);
    }
  }

  // --------------------------------------------------------- nobody else's business

  /** Nothing of process `q` has changed: its table, its handles, and what it is blocked on. */
  ghost predicate Undisturbed(s: Os, t: Os, q: Pid) {
    && (forall k: Slot :: k.pid == q ==>
         (k in t.files <==> k in s.files) && (k in s.files ==> t.files[k] == s.files[k]))
    && (forall id :: id in s.handles && s.handles[id].owner == q ==> id in t.handles && t.handles[id] == s.handles[id])
    && (q in t.active <==> q in s.active)
    && (q in t.blocked <==> q in s.blocked) && (q in s.blocked ==> t.blocked[q] == s.blocked[q])
    && (q in t.waitFor <==> q in s.waitFor) && (q in s.waitFor ==> t.waitFor[q] == s.waitFor[q])
  }

  /** The event concerns process `q`: its own call, its answer, its end, or the end it waits for. */
  predicate Concerns(s: Os, e: Event, q: Pid) {
    match e
    case EvOpenSerial(p, _, _) => p == q
    case EvOpenNfs(p, _, _, _, _) => p == q
    case EvRead(p, _, _, _) => p == q
    case EvWrite(p, _) => p == q
    case EvClose(p, _) => p == q
    case EvCallback(id) => id in s.handles && s.handles[id].owner == q
    case EvReceive(_) => s.reader == Some(q)
    case EvWait(p, _) => p == q
    case EvCreate(_, _) => false
    case EvKill(p) => p == q || WaitsFor(s, q, p)
  }

  /** Calls, callbacks, input, creations and deletions leave every running process alone that they do not concern. */
  lemma OthersUndisturbed(s: Os, e: Event, q: Pid)
    requires Inv(s) && Possible(s, e) && q in s.active && !Concerns(s, e, q)
    ensures Undisturbed(s, Step(s, e), q)
  {
    hide PendingOk, ExpectedOk, OrphansOk, AnsweredOk, ConsoleOk, InputOk, WaitsOk, Undisturbed;
    hide Kill, Receive, Create, CloseFile, Callback, OpenSerial, OpenNfs, ReadFile, WriteFile, Wait, TablesOk;
    match e
    case EvKill(p) => KillLeaves(s, p, q);
    case EvReceive(complete) => ReceiveLeaves(s, complete, q);
    case EvCreate(id, garbage) => CreateLeaves(s, id, garbage, q);
    case EvClose(p, fd) => CloseLeaves(s, p, fd, q);
    case EvCallback(id) => CallbackLeaves(s, id, q);
    case EvOpenSerial(p, mode, id) => OpenConsoleLeaves(s, p, mode, id, q);
    case EvOpenNfs(p, file, mode, allowed, id) => OpenNfsLeaves(s, p, file, mode, allowed, id, q);
    case EvRead(p, fd, n, input) => ReadLeaves(s, p, fd, n, input, q);
    case EvWrite(p, fd) => WriteLeaves(s, p, fd, q);
    case EvWait(p, target) => WaitLeaves(s, p, target, q);
  }

  lemma OpenLeaves(s: Os, t: Os, p: Pid, file: File, mode: Mode, id: Id, reader: Option<Pid>, q: Pid)
    requires NowOpen(s, t, p, file, mode, id, reader) && id !in s.handles && p != q
    ensures Undisturbed(s, t, q)
  {
    hide Lowest;
  }

  lemma OpenConsoleLeaves(s: Os, p: Pid, mode: Mode, id: Id, q: Pid)
    requires id !in s.handles && p != q
    ensures Undisturbed(s, OpenSerial(s, p, mode, id), q)
  {
    hide HasFree, NowOpen, OpenSerial;
    OpenConsoleExact(s, p, mode, id);
    var t := OpenSerial(s, p, mode, id);
    if t != s {
      OpenLeaves(s, t, p, Console, mode, id, if mode.read then Some(p) else s.reader, q);
    }
  }

  lemma OpenNfsLeaves(s: Os, p: Pid, file: nat, mode: Mode, allowed: Mode, id: Id, q: Pid)
    requires id !in s.handles && p != q
    ensures Undisturbed(s, OpenNfs(s, p, file, mode, allowed, id), q)
  {
    hide HasFree, NowOpen, OpenNfs;
    OpenNfsExact(s, p, file, mode, allowed, id);
    var t := OpenNfs(s, p, file, mode, allowed, id);
    if t != s {
      OpenLeaves(s, t, p, Nfs(file), mode, id, s.reader, q);
    }
  }

  lemma ReadLeaves(s: Os, p: Pid, fd: nat, n: nat, input: bool, q: Pid)
    requires TablesOk(s) && p in s.active && p != q
    ensures Undisturbed(s, ReadFile(s, p, fd, n, input), q)
  {
  }

  lemma WriteLeaves(s: Os, p: Pid, fd: nat, q: Pid)
    requires TablesOk(s) && p in s.active && p != q
    ensures Undisturbed(s, WriteFile(s, p, fd), q)
  {
  }

  lemma WaitLeaves(s: Os, p: Pid, target: Target, q: Pid)
    requires p != q
    ensures Undisturbed(s, Wait(s, p, target), q)
  {
  }

  lemma CloseLeaves(s: Os, p: Pid, fd: nat, q: Pid)
    requires TablesOk(s) && p in s.active && p != q
    ensures Undisturbed(s, CloseFile(s, p, fd), q)
  {
    hide LastReader;
  }

  lemma CallbackLeaves(s: Os, id: Id, q: Pid)
    requires id in s.handles && s.handles[id].owner != q
    ensures Undisturbed(s, Callback(s, id), q)
  {
  }

  lemma ReceiveLeaves(s: Os, complete: bool, q: Pid)
    requires Inv(s) && s.reader != Some(q)
    ensures Undisturbed(s, Receive(s, complete), q)
  {
    hide ReadingFrom, PendingOk, ExpectedOk, OrphansOk, AnsweredOk, InputOk, WaitsOk;
  }

  lemma CreateLeaves(s: Os, id: Id, garbage: bool, q: Pid)
    requires id !in s.handles && q in s.active
    ensures Undisturbed(s, Create(s, id, garbage), q)
  {
    hide Allocate;
  }

  lemma KillLeaves(s: Os, p: Pid, q: Pid)
    requires TablesOk(s) && q in s.active && p != q && !WaitsFor(s, q, p)
    ensures Undisturbed(s, Kill(s, p), q)
  {
    hide ClearsReader;
    if p in s.active && p != 0 {
      forall id | id in s.handles && s.handles[id].owner == q
        ensures !IsOpen(s, p, id) && !IsFreed(s, p, id)
      {
        assert forall k: Slot :: k in s.files && k.pid == p && s.files[k] == id ==> s.handles[id].owner == p;
      }
    }
  }

  // ------------------------------------------------------- rights over whole runs

  /** The event would make `id` a new handle. */
  predicate Names(e: Event, id: Id) {
    match e
    case EvOpenSerial(_, _, i) => i == id
    case EvOpenNfs(_, _, _, _, i) => i == id
    case EvCreate(i, _) => i == id
    case _ => false
  }

  /** The last event of the run that names `id`. */
  function LastOpen(es: seq<Event>, id: Id): Option<Event> {
    if es == [] then None
    else if LastOpen(es[1..], id).Some? then LastOpen(es[1..], id)
    else if Names(es[0], id) then Some(es[0]) else None
  }

  /** The handle has exactly the file, the owner and the rights the event asked for, and the file permits them. */
  predicate OpenedBy(e: Event, h: Handle) {
    match e
    case EvOpenSerial(p, mode, _) => h.file == Console && h.owner == p && h.mode == mode
    case EvOpenNfs(p, file, mode, allowed, _) =>
      h.file == Nfs(file) && h.owner == p && h.mode == mode && (mode.read ==> allowed.read) &&
        (mode.write ==> allowed.write)
    case EvCreate(_, _) => h.file == Console && h.mode == Mode(false, true)
    case _ => false
  }

  predicate SameTerms(h: Handle, h': Handle) {
    h.file == h'.file && h.owner == h'.owner && h.mode == h'.mode
  }

  /** A handle is made by the event that names it, and keeps its terms in every other step. */
  lemma TermsKept(s: Os, e: Event, id: Id)
    requires Possible(s, e) && id in Step(s, e).handles
    ensures if Names(e, id) then OpenedBy(e, Step(s, e).handles[id])
            else id in s.handles && SameTerms(s.handles[id], Step(s, e).handles[id])
  {
    hide OpenSerial, OpenNfs, Kill, Create;
    match e
    case EvOpenSerial(p, mode, i) => ConsoleTerms(s, p, mode, i, id);
    case EvOpenNfs(p, file, mode, allowed, i) => NfsTerms(s, p, file, mode, allowed, i, id);
    case EvKill(p) => KillTerms(s, p, id);
    case EvCreate(i, garbage) => CreateTerms(s, i, garbage, id);
    case EvRead(p, fd, n, input) => ReadTerms(s, p, fd, n, input, id);
    case EvWrite(p, fd) => WriteTerms(s, p, fd, id);
    case _ => CallTerms(s, e, id);
  }

  lemma CallTerms(s: Os, e: Event, id: Id)
    requires Possible(s, e) && id in Step(s, e).handles
    requires e.EvClose? || e.EvCallback? || e.EvReceive? || e.EvWait?
    ensures id in s.handles && SameTerms(s.handles[id], Step(s, e).handles[id])
  {
    hide ReadingFrom, LastReader;
  }

  lemma ReadTerms(s: Os, p: Pid, fd: nat, n: nat, input: bool, id: Id)
    requires id in ReadFile(s, p, fd, n, input).handles
    ensures id in s.handles && SameTerms(s.handles[id], ReadFile(s, p, fd, n, input).handles[id])
  {
  }

  lemma WriteTerms(s: Os, p: Pid, fd: nat, id: Id)
    requires id in WriteFile(s, p, fd).handles
    ensures id in s.handles && SameTerms(s.handles[id], WriteFile(s, p, fd).handles[id])
  {
  }

  lemma ConsoleTerms(s: Os, p: Pid, mode: Mode, i: Id, id: Id)
    requires id in OpenSerial(s, p, mode, i).handles && i !in s.handles
    ensures var h := OpenSerial(s, p, mode, i).handles[id];
      if i == id then h.file == Console && h.owner == p && h.mode == mode else id in s.handles && h == s.handles[id]
  {
    OpenConsoleExact(s, p, mode, i);
    hide OpenSerial, HasFree, Lowest;
  }

  lemma NfsTerms(s: Os, p: Pid, file: nat, mode: Mode, allowed: Mode, i: Id, id: Id)
    requires id in OpenNfs(s, p, file, mode, allowed, i).handles && i !in s.handles
    ensures var h := OpenNfs(s, p, file, mode, allowed, i).handles[id];
      if i == id then OpenedBy(EvOpenNfs(p, file, mode, allowed, i), h) else id in s.handles && h == s.handles[id]
  {
    OpenNfsExact(s, p, file, mode, allowed, i);
    hide OpenNfs, HasFree, Lowest;
  }

  lemma KillTerms(s: Os, p: Pid, id: Id)
    requires id in Kill(s, p).handles
    ensures id in s.handles && SameTerms(s.handles[id], Kill(s, p).handles[id])
  {
    hide ClearsReader, StillOpen, StillWaiting, StillBlocked, IsFreed, IsOpen;
  }

  lemma CreateTerms(s: Os, i: Id, garbage: bool, id: Id)
    requires id in Create(s, i, garbage).handles && i !in s.handles
    ensures var h := Create(s, i, garbage).handles[id];
      if i == id then h.file == Console && h.mode == Mode(false, true) else id in s.handles && h == s.handles[id]
  {
    hide Allocate;
  }

  lemma {:induction false} OpenedAs(s: Os, es: seq<Event>, id: Id)
    requires PossibleRun(s, es) && id in Run(s, es).handles
    ensures match LastOpen(es, id)
      case None => id in s.handles && SameTerms(s.handles[id], Run(s, es).handles[id])
      case Some(e) => OpenedBy(e, Run(s, es).handles[id])
    decreases |es|
  {
    if es != [] {
      hide Step, Possible, Names;
      OpenedAs(Step(s, es[0]), es[1..], id);
      if LastOpen(es[1..], id).None? {
        TermsKept(s, es[0], id);
      }
    }
  }

  /**
   Over every run, an NFS call is only ever issued by a process through a handle that this process
   opened on a file that permits it, with the right to read for a read and to write for a write.
   */
  lemma CallsAllowed(es: seq<Event>, e: Event, id: Id)
    requires PossibleRun(Start, es) && Possible(Run(Start, es), e)
    requires Step(Run(Start, es), e).pending[id] > Run(Start, es).pending[id]
    ensures e.EvRead? || e.EvWrite?
    ensures LastOpen(es, id).Some?
    ensures var o := LastOpen(es, id).value;
      && o.EvOpenNfs? && o.id == id && o.p == e.p
      && (e.EvRead? ==> o.mode.read && o.allowed.read) && (e.EvWrite? ==> o.mode.write && o.allowed.write)
  {
    var s := Run(Start, es);
    StartOk();
    RunKeeps(Start, es);
    IssueIs(s, e, id);
    hide Inv, Step, Possible, Run, PossibleRun;
    OpenedAs(Start, es, id);
    NamedIn(es, id);
  }

  lemma {:induction false} NamedIn(es: seq<Event>, id: Id)
    ensures LastOpen(es, id).Some? ==> Names(LastOpen(es, id).value, id)
  {
    if es != [] {
      NamedIn(es[1..], id);
    }
  }

  /** Only a read or a write of the owner, with the right to it, adds an outstanding call. */
  lemma IssueIs(s: Os, e: Event, id: Id)
    requires Inv(s) && Possible(s, e) && Step(s, e).pending[id] > s.pending[id]
    ensures e.EvRead? || e.EvWrite?
    ensures id in s.handles && s.handles[id].file.Nfs? && s.handles[id].owner == e.p
    ensures if e.EvRead? then s.handles[id].mode.read else s.handles[id].mode.write
  {
    hide PendingOk, ExpectedOk, OrphansOk, AnsweredOk, ConsoleOk, InputOk, WaitsOk;
    if e.EvRead? {
      ReadExact(s, e.p, e.fd, e.n, e.input);
      hide Step;
    } else if e.EvWrite? {
      WriteExact(s, e.p, e.fd);
      hide Step;
    } else {
      NoIssue(s, e);
      hide Step;
      assert false;
    }
  }

  lemma NoIssue(s: Os, e: Event)
    requires Possible(s, e) && !e.EvRead? && !e.EvWrite?
    ensures forall id :: Step(s, e).pending[id] <= s.pending[id]
  {
    hide FreeFrom, ReadingFrom, Allocate, LastReader, ClearsReader, StillOpen, StillAllocated, StillWaiting,
      StillBlocked;
  }
}
