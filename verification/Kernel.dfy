/**
 The process table, file tables and console of the server as they are updated
 in place, each operation proved to make the step of Lifetimes.
 */
module Kernel {
  import opened Seqs
  import opened Lifetimes
  import opened Calls

  /** Slots below `i` of process `p` have been visited by the deletion. */
  predicate Visited(p: Pid, i: nat, k: Slot) {
    k.pid == p && k.fd < i
  }

  ghost predicate FreedBelow(s: Os, p: Pid, i: nat, id: Id) {
    exists k :: Visited(p, i, k) && Frees(s, k) && s.files[k] == id
  }

  ghost predicate OpenBelow(s: Os, p: Pid, i: nat, id: Id) {
    exists k :: Visited(p, i, k) && k in s.files && s.files[k] == id
  }

  ghost predicate ClearedBelow(s: Os, p: Pid, i: nat) {
    s.reader == Some(p) && exists k :: Visited(p, i, k) && Frees(s, k) && s.handles[s.files[k]].file.Console?
  }

  ghost predicate FilesBelow(s: Os, p: Pid, i: nat, files: map<Slot, Id>) {
    forall k :: (k in files <==> k in s.files && !(Visited(p, i, k) && Frees(s, k))) &&
      (k in files ==> files[k] == s.files[k])
  }

  ghost predicate HandlesBelow(s: Os, p: Pid, i: nat, handles: map<Id, Handle>) {
    forall id :: (id in handles <==> id in s.handles && !FreedBelow(s, p, i, id))
      && (id in handles ==> handles[id] == if OpenBelow(s, p, i, id) then s.handles[id].(awaits := false)
           else s.handles[id])
  }

  class Server {
    var active: set<Pid>
    var waitFor: map<Pid, Target>
    var files: map<Slot, Id>
    var handles: map<Id, Handle>
    var reader: Option<Pid>
    var pending: multiset<Id>
    var blocked: map<Pid, Call>
    var nextTask: nat

    ghost function St(): Os
      reads this
    {
      Os(active, waitFor, files, handles, reader, pending, blocked, nextTask)
    }

    ghost predicate Valid()
      reads this
    {
      Inv(St())
    }

    constructor ()
      ensures Valid() && St() == Start
    {
      active, waitFor, files, handles := {0}, map[], map[], map[];
      reader, pending, blocked, nextTask := None, multiset{}, map[], 1;
      new;
      StartOk();
    }

    /** Releases a handle: it must be allocated and no answer for it outstanding. */
    method Free(id: Id)
      requires id in handles && id !in pending
      modifies this`handles
      ensures handles == old(handles) - {id}
    {
      handles := handles - {id};
    }

    // -------------------------------------------------------------- file tables

    method FindFreeFileSlot(p: Pid) returns (fd: int)
      ensures if FreeFrom(St(), p, 0).None? then fd == -1 else fd == FreeFrom(St(), p, 0).value
    {
      for i := 0 to PROCESS_MAX_FILES
        invariant FreeFrom(St(), p, 0) == FreeFrom(St(), p, i)
      {
        if Slot(p, i) !in files {
          return i;
        }
      }
      fd := -1;
    }

    method CreateFileDescriptor(p: Pid, fd: nat, file: File, mode: Mode, id: Id)
      modifies this`files, this`handles
      ensures St() == WithHandle(old(St()), p, fd, id, file, mode)
    {
      handles := handles[id := Handle(file, p, mode, false, 0)];
      files := files[Slot(p, fd) := id];
    }

    method OpenConsole(p: Pid, mode: Mode, id: Id)
      requires Valid() && Enabled(St(), p) && id !in handles
      modifies this
      ensures Valid() && St() == OpenSerial(old(St()), p, mode, id)
      ensures ConsoleOpened(old(St()), St(), p, mode, id)
    {
      hide Inv, FreeFrom, ConsoleOpened;
      OpenConsoleExact(St(), p, mode, id);
      OpenSerialKeeps(St(), p, mode, id);
      var fd := FindFreeFileSlot(p);
      if fd != -1 {
        if mode.read {
          if reader.None? || reader == Some(p) {
            reader := Some(p);
          } else {
            return;
          }
        }
        CreateFileDescriptor(p, fd, Console, mode, id);
      }
    }

    method OpenNfsFile(p: Pid, file: nat, mode: Mode, allowed: Mode, id: Id)
      requires Valid() && Enabled(St(), p) && id !in handles
      modifies this
      ensures Valid() && St() == OpenNfs(old(St()), p, file, mode, allowed, id)
      ensures NfsOpened(old(St()), St(), p, file, mode, allowed, id)
    {
      hide Inv, FreeFrom, NfsOpened;
      OpenNfsExact(St(), p, file, mode, allowed, id);
      OpenNfsKeeps(St(), p, file, mode, allowed, id);
      var fd := FindFreeFileSlot(p);
      if fd != -1 && (mode.read ==> allowed.read) && (mode.write ==> allowed.write) {
        CreateFileDescriptor(p, fd, Nfs(file), mode, id);
      }
    }

    /** read_nfs and write_nfs: the request carries the handle's address as its token. */
    method IssueNfs(p: Pid, fd: nat, id: Id)
      requires id in handles
      modifies this`pending, this`handles, this`blocked
      ensures St() == Issue(old(St()), p, fd, id)
    {
      pending := pending + multiset{id};
      handles := handles[id := handles[id].(awaits := true)];
      blocked := blocked[p := OnReply(fd, id)];
    }

    /** read_serial: input that is there answers the call, otherwise the caller stays blocked. */
    method ReadSerial(p: Pid, fd: nat, id: Id, input: bool)
      requires id in handles
      modifies this`handles, this`blocked
      ensures input && old(handles)[id].toRead > 0 ==>
        handles == old(handles)[id := old(handles)[id].(toRead := 0)] && blocked == old(blocked)
      ensures !(input && old(handles)[id].toRead > 0) ==>
        handles == old(handles) && blocked == old(blocked)[p := OnInput(fd, id)]
    {
      if input && handles[id].toRead > 0 {
        handles := handles[id := handles[id].(toRead := 0)];
      } else {
        blocked := blocked[p := OnInput(fd, id)];
      }
    }

    method Read(p: Pid, fd: nat, n: nat, input: bool)
      requires Valid() && Enabled(St(), p)
      modifies this
      ensures Valid() && St() == ReadFile(old(St()), p, fd, n, input)
      ensures ReadDone(old(St()), St(), p, fd, n, input)
    {
      hide Inv, ReadFile, ReadDone;
      ReadExact(St(), p, fd, n, input);
      ReadKeeps(St(), p, fd, n, input);
      ReadUpdate(p, fd, n, input);
    }

    method ReadUpdate(p: Pid, fd: nat, n: nat, input: bool)
      modifies this`handles, this`blocked, this`pending
      ensures St() == ReadFile(old(St()), p, fd, n, input)
    {
      ghost var s := St();
      var k := Slot(p, fd);
      if !(k in files && files[k] in handles && handles[files[k]].mode.read && fd < PROCESS_MAX_FILES) {
        return;
      }
      var id := files[k];
      handles := handles[id := handles[id].(toRead := n)];
      if handles[id].file.Nfs? {
        IssueNfs(p, fd, id);
      } else {
        ReadSerial(p, fd, id, input);
        assert input && n > 0 ==> handles == s.handles[id := s.handles[id].(toRead := 0)];
      }
    }

    method Write(p: Pid, fd: nat)
      requires Valid() && Enabled(St(), p)
      modifies this
      ensures Valid() && St() == WriteFile(old(St()), p, fd)
      ensures Written(old(St()), St(), p, fd)
    {
      hide Inv, Written;
      WriteExact(St(), p, fd);
      WriteKeeps(St(), p, fd);
      if CanWrite(Os(active, waitFor, files, handles, reader, pending, blocked, nextTask), p, fd) {
        var id := files[Slot(p, fd)];
        if handles[id].file.Nfs? {
          IssueNfs(p, fd, id);
        }
      }
    }

    /** close_serial: whether this is the last handle its process reads the console with. */
    method IsLastReader(k: Slot) returns (last: bool)
      ensures last <==> LastReader(St(), k)
    {
      for i := 0 to PROCESS_MAX_FILES
        invariant forall l: Slot :: l.pid == k.pid && l != k && l.fd < i ==> !Reads(St(), l)
      {
        var l := Slot(k.pid, i);
        if l in files && l != k && files[l] in handles && handles[files[l]].mode.read &&
          handles[files[l]].file.Console? {
          assert Reads(St(), l);
          return false;
        }
      }
      last := true;
    }

    method Close(p: Pid, fd: nat)
      requires Valid() && Enabled(St(), p)
      modifies this
      ensures Valid() && St() == CloseFile(old(St()), p, fd)
      ensures Closed(old(St()), St(), p, fd)
    {
      hide Inv, Closed;
      CloseExact(St(), p, fd);
      CloseKeeps(St(), p, fd);
      var k := Slot(p, fd);
      if k !in files {
        return;
      }
      var id := files[k];
      NotOutstanding(St(), k);
      if handles[id].file.Console? && handles[id].mode.read {
        var last := IsLastReader(k);
        if last {
          reader := None;
        }
      }
      Free(id);
      files := files - {k};
    }

    /** nfs_read_callback and nfs_write_callback, as far as the handle is concerned. */
    method NfsCallback(id: Id)
      requires Valid() && id in pending
      modifies this
      ensures Valid() && St() == Callback(old(St()), id)
    {
      hide Inv;
      CallbackKeeps(St(), id);
      pending := pending - multiset{id};
      if !handles[id].awaits {
        Free(id);
        return;
      }
      blocked := blocked - {handles[id].owner};
    }

    method GetReadingFileHandle(p: Pid) returns (fd: int)
      ensures if ReadingFrom(St(), p, 0).None? then fd == -1 else fd == ReadingFrom(St(), p, 0).value
    {
      for i := 0 to PROCESS_MAX_FILES
        invariant ReadingFrom(St(), p, 0) == ReadingFrom(St(), p, i)
      {
        var k := Slot(p, i);
        if k in files && files[k] in handles && handles[files[k]].file.Console? && handles[files[k]].toRead > 0 {
          return i;
        }
      }
      fd := -1;
    }

    method SerialReceive(complete: bool)
      requires Valid()
      modifies this
      ensures Valid() && St() == Receive(old(St()), complete)
      ensures Received(old(St()), St(), complete)
    {
      hide Inv, ReadingFrom, Received;
      ReceiveExact(St(), complete);
      ReceiveKeeps(St(), complete);
      if reader.None? {
        return;
      }
      var fd := GetReadingFileHandle(reader.value);
      if fd != -1 && complete {
        var id := files[Slot(reader.value, fd)];
        blocked := blocked - {handles[id].owner};
        handles := handles[id := handles[id].(toRead := 0)];
      }
    }

    // -------------------------------------------------------------- processes

    method WaitProcess(p: Pid, target: Target)
      requires Valid() && Enabled(St(), p)
      modifies this
      ensures Valid() && St() == Wait(old(St()), p, target)
      ensures WaitBegun(old(St()), St(), p, target)
    {
      hide Inv, WaitBegun;
      WaitExact(St(), p, target);
      WaitKeeps(St(), p, target);
      if target.Only? && (target.pid >= MAX_RUNNING_PROCESS || target.pid !in active) {
        return;
      }
      waitFor := waitFor[p := target];
      blocked := blocked[p := OnExit];
    }

    method AllocateProcessEntry() returns (p: Option<Pid>)
      modifies this`nextTask
      ensures (p, nextTask) == Allocate(old(St()))
    {
      if nextTask < MAX_RUNNING_PROCESS && nextTask !in active {
        p := Some(nextTask);
        nextTask := nextTask + 1;
        return;
      }
      if nextTask == MAX_RUNNING_PROCESS {
        nextTask := 2;
      }
      ghost var s := old(St());
      for i := 1 to MAX_RUNNING_PROCESS
        invariant AllocateFrom(s, 1) == AllocateFrom(s, i)
      {
        if i !in active {
          return Some(i);
        }
      }
      p := None;
    }

    /** register_process. */
    method RegisterProcess(id: Id, garbage: bool)
      requires Valid() && id !in handles
      modifies this
      ensures Valid() && St() == Create(old(St()), id, garbage)
      ensures 0 in old(active) ==> Created(old(St()), St(), id)
    {
      hide Inv, Allocate, Created;
      if 0 in active {
        CreateExact(St(), id, garbage);
      }
      CreateKeeps(St(), id, garbage);
      ghost var s := St();
      var p := AllocateProcessEntry();
      if p.None? {
        return;
      }
      EnterProcess(p.value, id, garbage);
    }

    method EnterProcess(p: Pid, id: Id, garbage: bool)
      modifies this
      ensures St() == Enter(old(St()), p, id, garbage)
    {
      waitFor, blocked, active := waitFor - {p}, blocked - {p}, active + {p};
      files := map k | k in files && k.pid != p :: files[k];
      handles := handles[id := Handle(Console, p, Mode(false, true), garbage, 0)];
      files := files[Slot(p, 0) := id];
    }

    /** wait_wakeup: answers whoever waits for the process that ended, or for any. */
    method WaitWakeup(p: Pid)
      requires forall q :: q in active ==> q < MAX_RUNNING_PROCESS
      modifies this`waitFor, this`blocked
      ensures waitFor == StillWaiting(old(St()), p) && blocked == StillBlocked(old(St()), p)
    {
      hide Unless;
      ghost var s := St();
      UnlessBounds(s, s.waitFor, p);
      UnlessBounds(s, s.blocked, p);
      for i := 0 to MAX_RUNNING_PROCESS
        invariant waitFor == Unless(s, s.waitFor, p, i) && blocked == Unless(s, s.blocked, p, i)
      {
        UnlessNext(s, s.waitFor, p, i);
        UnlessNext(s, s.blocked, p, i);
        if i in active && i in waitFor && (waitFor[i] == Only(p) || waitFor[i] == Anyone) {
          blocked := blocked - {i};
          waitFor := waitFor - {i};
        }
      }
    }

    method StopAndWake(p: Pid)
      requires forall q :: q in active ==> q < MAX_RUNNING_PROCESS
      modifies this`active, this`blocked, this`waitFor
      ensures var t := Stopped(old(St()), p);
        active == t.active && waitFor == StillWaiting(t, p) && blocked == StillBlocked(t, p)
    {
      blocked := blocked - {p};
      active := active - {p};
      hide StillWaiting, StillBlocked;
      WaitWakeup(p);
    }

    /** One slot of a process being deleted: a handle in use is left to its callback, any other is freed. */
    method ReleaseSlot(p: Pid, i: nat, ghost s: Os)
      requires Inv(s) && p in s.active && pending == s.pending
      requires FilesBelow(s, p, i, files) && HandlesBelow(s, p, i, handles)
      requires reader == if ClearedBelow(s, p, i) then None else s.reader
      modifies this`files, this`handles, this`reader
      ensures FilesBelow(s, p, i + 1, files) && HandlesBelow(s, p, i + 1, handles)
      ensures reader == if ClearedBelow(s, p, i + 1) then None else s.reader
    {
      hide Inv, FilesBelow, HandlesBelow, ClearedBelow;
      var k := Slot(p, i);
      SlotNext(s, p, i, files, handles);
      if k in files {
        var id := files[k];
        if handles[id].awaits {
          handles := handles[id := handles[id].(awaits := false)];
        } else {
          if handles[id].file.Console? && reader == Some(p) {
            reader := None;
          }
          Free(id);
          files := files - {k};
        }
      }
    }

    /** delete_process, without the pages and timers of the process. */
    method DeleteProcess(p: Pid)
      requires Valid()
      modifies this
      ensures Valid() && St() == Kill(old(St()), p)
      ensures if old(p in active) && p != 0 then Ended(old(St()), St(), p) else St() == old(St())
    {
      hide Inv, Frees, ClearsReader, StillOpen, StillAllocated, StillWaiting, StillBlocked, TablesOk, PendingOk,
        ExpectedOk, OrphansOk, AnsweredOk, ConsoleOk, InputOk, WaitsOk, Ended;
      Bounded(St());
      KillExact(St(), p);
      KillKeeps(St(), p);
      if p < 1 || p >= MAX_RUNNING_PROCESS || p !in active {
        return;
      }
      ghost var s := St();
      ReleaseFiles(p);
      SameWaiting(Stopped(s, p), Stopped(St(), p), p);
      StopAndWake(p);
    }

    method ReleaseFiles(p: Pid)
      requires Valid() && p in active
      modifies this`files, this`handles, this`reader
      ensures files == StillOpen(old(St()), p) && handles == StillAllocated(old(St()), p)
      ensures reader == if ClearsReader(old(St()), p) then None else old(reader)
    {
      ghost var s := St();
      NothingBelow(s, p);
      hide Inv, FilesBelow, HandlesBelow, ClearedBelow, ClearsReader, StillOpen, StillAllocated;
      for i := 0 to PROCESS_MAX_FILES
        invariant FilesBelow(s, p, i, files) && HandlesBelow(s, p, i, handles)
        invariant reader == if ClearedBelow(s, p, i) then None else s.reader
      {
        ReleaseSlot(p, i, s);
      }
      ReaderAssembled(s, p);
      FilesAssembled(s, p, files);
      HandlesAssembled(s, p, handles);
    }
  }

  /** What remains of `m` without those of the first `i` processes that wait for `p`. */
  ghost function Unless<T>(s: Os, m: map<Pid, T>, p: Pid, i: nat): map<Pid, T> {
    map q | q in m && !(q < i && WaitsFor(s, q, p)) :: m[q]
  }

  lemma UnlessNext<T>(s: Os, m: map<Pid, T>, p: Pid, i: nat)
    ensures Unless(s, m, p, i + 1) == Unless(s, m, p, i) - if WaitsFor(s, i, p) then {i} else {}
    ensures i in Unless(s, m, p, i) <==> i in m
    ensures i in m ==> Unless(s, m, p, i)[i] == m[i]
  {
  }

  lemma UnlessBounds<T>(s: Os, m: map<Pid, T>, p: Pid)
    requires forall q :: q in s.active ==> q < MAX_RUNNING_PROCESS
    ensures Unless(s, m, p, 0) == m
    ensures Unless(s, m, p, MAX_RUNNING_PROCESS) == map q | q in m && !WaitsFor(s, q, p) :: m[q]
  {
  }

  lemma SameWaiting(s: Os, t: Os, p: Pid)
    requires s.active == t.active && s.waitFor == t.waitFor && s.blocked == t.blocked
    ensures StillWaiting(s, p) == StillWaiting(t, p) && StillBlocked(s, p) == StillBlocked(t, p)
  {
  }

  lemma Bounded(s: Os)
    requires Inv(s)
    ensures forall q :: q in s.active ==> q < MAX_RUNNING_PROCESS
  {
  }

  /** What the first `i + 1` slots contribute beyond the first `i`. */
  lemma FreedNext(s: Os, p: Pid, i: nat, id: Id)
    ensures FreedBelow(s, p, i + 1, id) <==>
      FreedBelow(s, p, i, id) || (Frees(s, Slot(p, i)) && s.files[Slot(p, i)] == id)
  {
    if FreedBelow(s, p, i, id) {
      var l :| Visited(p, i, l) && Frees(s, l) && s.files[l] == id;
      assert Visited(p, i + 1, l);
    }
  }

  lemma OpenNext(s: Os, p: Pid, i: nat, id: Id)
    ensures OpenBelow(s, p, i + 1, id) <==>
      OpenBelow(s, p, i, id) || (Slot(p, i) in s.files && s.files[Slot(p, i)] == id)
  {
    if OpenBelow(s, p, i, id) {
      var l :| Visited(p, i, l) && l in s.files && s.files[l] == id;
      assert Visited(p, i + 1, l);
    }
  }

  lemma ReaderNext(s: Os, p: Pid, i: nat)
    ensures ClearedBelow(s, p, i + 1) <==>
      ClearedBelow(s, p, i) || (s.reader == Some(p) && Frees(s, Slot(p, i)) &&
        s.handles[s.files[Slot(p, i)]].file.Console?)
    ensures ClearedBelow(s, p, i) ==> s.reader == Some(p)
  {
    if ClearedBelow(s, p, i) {
      var l :| Visited(p, i, l) && Frees(s, l) && s.handles[s.files[l]].file.Console?;
      assert Visited(p, i + 1, l);
    }
  }

  lemma FilesNext(s: Os, p: Pid, i: nat, files: map<Slot, Id>)
    requires FilesBelow(s, p, i, files)
    ensures FilesBelow(s, p, i + 1, if Frees(s, Slot(p, i)) then files - {Slot(p, i)} else files)
  {
  }

  lemma HandlesNext(s: Os, p: Pid, i: nat, handles: map<Id, Handle>)
    requires Inv(s) && p in s.active && HandlesBelow(s, p, i, handles)
    ensures var k := Slot(p, i);
      HandlesBelow(s, p, i + 1,
        if k !in s.files || s.files[k] !in handles then handles
        else if s.handles[s.files[k]].awaits then handles[s.files[k] := handles[s.files[k]].(awaits := false)]
        else handles - {s.files[k]})
  {
    hide Inv, FreedBelow, OpenBelow;
    var k := Slot(p, i);
    if k in s.files {
      FirstVisit(s, p, i);
    }
    forall id
      ensures FreedBelow(s, p, i + 1, id) <==> FreedBelow(s, p, i, id) || (Frees(s, k) && s.files[k] == id)
      ensures OpenBelow(s, p, i + 1, id) <==> OpenBelow(s, p, i, id) || (k in s.files && s.files[k] == id)
    {
      FreedNext(s, p, i, id);
      OpenNext(s, p, i, id);
    }
  }

  /** Different slots hold different handles. */
  lemma FirstVisit(s: Os, p: Pid, i: nat)
    requires Inv(s) && p in s.active && Slot(p, i) in s.files
    ensures var id := s.files[Slot(p, i)]; id in s.handles && !OpenBelow(s, p, i, id) && !FreedBelow(s, p, i, id)
  {
  }

  /** What visiting slot `i` has to do. */
  lemma SlotNext(s: Os, p: Pid, i: nat, files: map<Slot, Id>, handles: map<Id, Handle>)
    requires Inv(s) && p in s.active && FilesBelow(s, p, i, files) && HandlesBelow(s, p, i, handles)
    ensures var k := Slot(p, i);
      if k !in files then
        FilesBelow(s, p, i + 1, files) && HandlesBelow(s, p, i + 1, handles) &&
          (ClearedBelow(s, p, i + 1) <==> ClearedBelow(s, p, i))
      else
        var id := files[k];
        && id in handles
        && if handles[id].awaits then
             && FilesBelow(s, p, i + 1, files) && HandlesBelow(s, p, i + 1,
                handles[id := handles[id].(awaits := false)])
             && (ClearedBelow(s, p, i + 1) <==> ClearedBelow(s, p, i))
           else
             && id !in s.pending
             && FilesBelow(s, p, i + 1, files - {k}) && HandlesBelow(s, p, i + 1, handles - {id})
             && (ClearedBelow(s, p, i + 1) <==>
                  ClearedBelow(s, p, i) || (s.reader == Some(p) && handles[id].file.Console?))
    ensures ClearedBelow(s, p, i) ==> s.reader == Some(p)
  {
    hide Inv, FilesBelow, HandlesBelow, ClearedBelow;
    FilesNext(s, p, i, files);
    HandlesNext(s, p, i, handles);
    ReaderNext(s, p, i);
    SlotUntouched(s, p, i, files, handles);
  }

  /** Slot `i` is as it was, and a handle with an answer outstanding awaits it. */
  lemma SlotUntouched(s: Os, p: Pid, i: nat, files: map<Slot, Id>, handles: map<Id, Handle>)
    requires Inv(s) && p in s.active && FilesBelow(s, p, i, files) && HandlesBelow(s, p, i, handles)
    ensures var k := Slot(p, i);
      && (k in files <==> k in s.files)
      && (k in files ==> files[k] == s.files[k] && files[k] in handles && files[k] in s.handles)
      && (k in files ==> handles[files[k]] == s.handles[files[k]])
      && (k in files ==> (files[k] in s.pending ==> handles[files[k]].awaits))
  {
    if Slot(p, i) in s.files {
      FirstVisit(s, p, i);
    }
  }

  lemma NothingBelow(s: Os, p: Pid)
    ensures FilesBelow(s, p, 0, s.files) && HandlesBelow(s, p, 0, s.handles) && !ClearedBelow(s, p, 0)
  {
  }

  /** The handle of a process that can make calls is not in use by an unanswered one. */
  lemma NotOutstanding(s: Os, k: Slot)
    requires Inv(s) && Enabled(s, k.pid) && k in s.files
    ensures s.files[k] in s.handles && s.files[k] !in s.pending
  {
    var id := s.files[k];
    assert id in s.pending ==> Expected(s, id);
  }

  lemma AllVisited(s: Os, p: Pid, k: Slot)
    requires Inv(s) && p in s.active && k in s.files && k.pid == p
    ensures Visited(p, PROCESS_MAX_FILES, k)
  {
  }

  lemma ReaderAssembled(s: Os, p: Pid)
    requires Inv(s) && p in s.active
    ensures ClearsReader(s, p) <==> ClearedBelow(s, p, PROCESS_MAX_FILES)
  {
    if ClearsReader(s, p) {
      var k: Slot :| Frees(s, k) && k.pid == p && s.handles[s.files[k]].file.Console?;
      AllVisited(s, p, k);
    }
  }

  lemma FilesAssembled(s: Os, p: Pid, files: map<Slot, Id>)
    requires Inv(s) && p in s.active && FilesBelow(s, p, PROCESS_MAX_FILES, files)
    ensures files == StillOpen(s, p)
  {
    forall k: Slot | k in s.files && k.pid == p
      ensures Visited(p, PROCESS_MAX_FILES, k)
    {
      AllVisited(s, p, k);
    }
    hide Inv, Frees;
  }

  lemma HandlesAssembled(s: Os, p: Pid, handles: map<Id, Handle>)
    requires Inv(s) && p in s.active && HandlesBelow(s, p, PROCESS_MAX_FILES, handles)
    ensures handles == StillAllocated(s, p)
  {
    forall id
      ensures IsFreed(s, p, id) <==> FreedBelow(s, p, PROCESS_MAX_FILES, id)
      ensures IsOpen(s, p, id) <==> OpenBelow(s, p, PROCESS_MAX_FILES, id)
    {
      if IsFreed(s, p, id) {
        var k: Slot :| Frees(s, k) && k.pid == p && s.files[k] == id;
        AllVisited(s, p, k);
      }
      if IsOpen(s, p, id) {
        var k: Slot :| k in s.files && k.pid == p && s.files[k] == id;
        AllVisited(s, p, k);
      }
    }
    hide Inv, IsFreed, FreedBelow, IsOpen, OpenBelow;
  }
}
