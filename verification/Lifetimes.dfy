/**
 Lifetimes across process deletion: file handles with NFS calls in flight, the
 single reader of the console, and processes that wait for others to end.
 */
module Lifetimes {
  import opened Seqs

  type Pid = nat
  /** A file handle's address. */
  type Id = nat

  const MAX_RUNNING_PROCESS: nat := 128
  const PROCESS_MAX_FILES: nat := 16

  datatype File = Console | Nfs(file: nat)
  datatype Mode = Mode(read: bool, write: bool)

  /** The fields of file_table_entry that decide its lifetime. */
  datatype Handle = Handle(file: File, owner: Pid, mode: Mode, awaits: bool, toRead: nat)

  datatype Slot = Slot(pid: Pid, fd: nat)
  datatype Target = Anyone | Only(pid: Pid)

  /** The call a process has not been answered yet. */
  datatype Call = OnReply(fd: nat, id: Id) | OnInput(fd: nat, id: Id) | OnExit

  datatype Os = Os(
    active: set<Pid>,
    waitFor: map<Pid, Target>,
    files: map<Slot, Id>,           // all file tables; absent where NULL
    handles: map<Id, Handle>,       // allocated handles
    reader: Option<Pid>,            // the reader field of the console
    pending: multiset<Id>,          // tokens of unanswered NFS calls
    blocked: map<Pid, Call>,        // processes waiting for an answer
    nextTask: nat)

  // ------------------------------------------------------------------ invariant

  /** Slot `k` of a running process holds handle `id`. */
  predicate Holds(s: Os, k: Slot, id: Id) {
    k.pid in s.active && k in s.files && s.files[k] == id
  }

  ghost predicate TablesOk(s: Os) {
    && (forall p :: p in s.active ==> p < MAX_RUNNING_PROCESS)
    && (forall k :: k in s.files && k.pid in s.active ==>
         k.fd < PROCESS_MAX_FILES && s.files[k] in s.handles && s.handles[s.files[k]].owner == k.pid)
    && (forall k, l :: k in s.files && l in s.files && k.pid in s.active && k != l ==>
         s.files[k] != s.files[l] || l.pid !in s.active)
  }

  /** The owner of `id` runs, has it open, and is blocked in the call on it. */
  predicate Expected(s: Os, id: Id) {
    && id in s.handles && s.handles[id].owner in s.active && s.handles[id].owner in s.blocked
    && var p := s.handles[id].owner;
       s.blocked[p].OnReply? && s.blocked[p].id == id && Holds(s, Slot(p, s.blocked[p].fd), id)
  }

  /** Unanswered calls: one at most for a handle, which stays allocated. */
  ghost predicate PendingOk(s: Os) {
    forall id :: id in s.pending ==> s.pending[id] == 1 && id in s.handles
  }

  /** An awaited answer finds its process running and blocked in the call. */
  ghost predicate ExpectedOk(s: Os) {
    forall id :: id in s.pending && id in s.handles && s.handles[id].awaits ==> Expected(s, id)
  }

  /** An answer no longer awaited is for a handle that no running process has. */
  ghost predicate OrphansOk(s: Os) {
    forall k: Slot :: k in s.files && k.pid in s.active && s.files[k] in s.pending && s.files[k] in s.handles ==>
      s.handles[s.files[k]].awaits
  }

  /** A process blocked in a call on a file will be answered. */
  ghost predicate AnsweredOk(s: Os) {
    forall p :: p in s.active && p in s.blocked && s.blocked[p].OnReply? ==>
      var id := s.blocked[p].id; id in s.pending && id in s.handles && s.handles[id].owner == p && s.handles[id].awaits
  }

  /** Slot `k` is open for reading the console. */
  predicate Reads(s: Os, k: Slot) {
    k in s.files && s.files[k] in s.handles && s.handles[s.files[k]].file.Console? && s.handles[s.files[k]].mode.read
  }

  ghost predicate HasReader(s: Os, p: Pid) {
    exists k: Slot :: Reads(s, k) && k.pid == p
  }

  ghost predicate ConsoleOk(s: Os) {
    && (forall k :: Reads(s, k) && k.pid in s.active ==> s.reader == Some(k.pid) && !s.handles[s.files[k]].awaits)
    && (s.reader.Some? ==> s.reader.value in s.active && HasReader(s, s.reader.value))
  }

  /** A console handle with a read under way is the one its owner is blocked on. */
  ghost predicate InputOk(s: Os) {
    forall k :: k in s.files && k.pid in s.active && s.files[k] in s.handles && s.handles[s.files[k]].file.Console? &&
      s.handles[s.files[k]].toRead > 0
      ==> Reads(s, k) && k.pid in s.blocked && s.blocked[k.pid] == OnInput(k.fd, s.files[k])
  }

  ghost predicate WaitsOk(s: Os) {
    && (forall p :: p in s.active && p in s.waitFor && s.waitFor[p].Only? ==> s.waitFor[p].pid in s.active)
    && (forall p :: p in s.active ==> (p in s.waitFor <==> p in s.blocked && s.blocked[p].OnExit?))
  }

  ghost predicate Inv(s: Os) {
    TablesOk(s) && PendingOk(s) && ExpectedOk(s) && OrphansOk(s) && AnsweredOk(s) && ConsoleOk(s) &&
      InputOk(s) && WaitsOk(s)
  }

  // ---------------------------------------------------------------- transitions

  /** Only a running process that is not blocked makes calls. */
  predicate Enabled(s: Os, p: Pid) {
    p in s.active && p !in s.blocked
  }

  function FreeFrom(s: Os, p: Pid, fd: nat): (r: Option<nat>)
    requires fd <= PROCESS_MAX_FILES
    ensures r.Some? ==> fd <= r.value < PROCESS_MAX_FILES && Slot(p, r.value) !in s.files
    decreases PROCESS_MAX_FILES - fd
  {
    if fd == PROCESS_MAX_FILES then None else if Slot(p, fd) !in s.files then Some(fd) else FreeFrom(s, p, fd + 1)
  }

  function WithHandle(s: Os, p: Pid, fd: nat, id: Id, file: File, mode: Mode): Os {
    s.(files := s.files[Slot(p, fd) := id], handles := s.handles[id := Handle(file, p, mode, false, 0)])
  }

  /** open_serial: readers are refused while another process is the reader. */
  function OpenSerial(s: Os, p: Pid, mode: Mode, id: Id): Os {
    var fd := FreeFrom(s, p, 0);
    if fd.None? then s
    else if !mode.read then WithHandle(s, p, fd.value, id, Console, mode)
    else if s.reader.None? || s.reader == Some(p) then WithHandle(s, p, fd.value, id, Console, mode).(reader := Some(p))
    else s
  }

  /** open_nfs; `allowed` are the modes the file permits. */
  function OpenNfs(s: Os, p: Pid, file: nat, mode: Mode, allowed: Mode, id: Id): Os {
    var fd := FreeFrom(s, p, 0);
    if fd.Some? && (mode.read ==> allowed.read) && (mode.write ==> allowed.write)
    then WithHandle(s, p, fd.value, id, Nfs(file), mode) else s
  }

  /** The NFS call is issued and its answer awaited. */
  function Issue(s: Os, p: Pid, fd: nat, id: Id): Os
    requires id in s.handles
  {
    s.(handles := s.handles[id := s.handles[id].(awaits := true)], pending := s.pending + multiset{id},
      blocked := s.blocked[p := OnReply(fd, id)])
  }

  /** A read of `n` bytes from the NFS file in slot `fd` is issued. */
  function IssueRead(s: Os, p: Pid, fd: nat, n: nat): Os
    requires Slot(p, fd) in s.files && s.files[Slot(p, fd)] in s.handles
  {
    var id := s.files[Slot(p, fd)];
    Issue(s.(handles := s.handles[id := s.handles[id].(toRead := n)]), p, fd, id)
  }

  predicate CanRead(s: Os, p: Pid, fd: nat) {
    Slot(p, fd) in s.files && s.files[Slot(p, fd)] in s.handles && s.handles[s.files[Slot(p, fd)]].mode.read &&
      fd < PROCESS_MAX_FILES
  }

  predicate CanWrite(s: Os, p: Pid, fd: nat) {
    Slot(p, fd) in s.files && s.files[Slot(p, fd)] in s.handles && s.handles[s.files[Slot(p, fd)]].mode.write &&
      fd < PROCESS_MAX_FILES
  }

  /** read_file: a console read is answered at once if `input` is available, else when input arrives. */
  function ReadFile(s: Os, p: Pid, fd: nat, n: nat, input: bool): Os {
    if !CanRead(s, p, fd) then s
    else
      var id := s.files[Slot(p, fd)];
      if s.handles[id].file.Nfs? then IssueRead(s, p, fd, n)
      else if input && n > 0 then s.(handles := s.handles[id := s.handles[id].(toRead := 0)])
      else s.(handles := s.handles[id := s.handles[id].(toRead := n)], blocked := s.blocked[p := OnInput(fd, id)])
  }

  function WriteFile(s: Os, p: Pid, fd: nat): Os {
    if !CanWrite(s, p, fd) then s
    else
      var id := s.files[Slot(p, fd)];
      if s.handles[id].file.Nfs? then Issue(s, p, fd, id) else s
  }

  /** No other handle of the process is open for reading the console. */
  ghost predicate LastReader(s: Os, k: Slot) {
    forall l: Slot :: l.pid == k.pid && l != k && l.fd < PROCESS_MAX_FILES ==> !Reads(s, l)
  }

  /** close_file with close_serial. */
  ghost function CloseFile(s: Os, p: Pid, fd: nat): Os {
    var k := Slot(p, fd);
    if k !in s.files then s
    else
      var r := if Reads(s, k) && LastReader(s, k) then None else s.reader;
      s.(files := s.files - {k}, handles := s.handles - {s.files[k]}, reader := r)
  }

  /** nfs_read_callback and nfs_write_callback: free the handle if its process was killed, else answer. */
  function Callback(s: Os, id: Id): Os
    requires id in s.handles
  {
    var t := s.(pending := s.pending - multiset{id});
    if !s.handles[id].awaits then t.(handles := t.handles - {id})
    else t.(blocked := t.blocked - {s.handles[id].owner})
  }

  predicate Reading(s: Os, k: Slot) {
    k in s.files && s.files[k] in s.handles && s.handles[s.files[k]].file.Console? && s.handles[s.files[k]].toRead > 0
  }

  /** The first handle of process `p` with a console read under way. */
  function ReadingFrom(s: Os, p: Pid, fd: nat): (r: Option<nat>)
    requires fd <= PROCESS_MAX_FILES
    ensures r.Some? ==> fd <= r.value < PROCESS_MAX_FILES && Reading(s, Slot(p, r.value))
    decreases PROCESS_MAX_FILES - fd
  {
    if fd == PROCESS_MAX_FILES then None else if Reading(s, Slot(p, fd)) then Some(fd) else ReadingFrom(s, p, fd + 1)
  }

  /** serial_receive_handler; `complete` says that the character ends a line or finds the buffer full. */
  function Receive(s: Os, complete: bool): Os {
    if s.reader.None? || !complete then s
    else match ReadingFrom(s, s.reader.value, 0)
      case None => s
      case Some(fd) =>
        var id := s.files[Slot(s.reader.value, fd)];
        s.(handles := s.handles[id := s.handles[id].(toRead := 0)], blocked := s.blocked - {s.handles[id].owner})
  }

  /** wait_process for any process, or for one: answered at once if that one is not running. */
  function Wait(s: Os, p: Pid, target: Target): Os {
    if target.Only? && (target.pid >= MAX_RUNNING_PROCESS || target.pid !in s.active) then s
    else s.(waitFor := s.waitFor[p := target], blocked := s.blocked[p := OnExit])
  }

  /** The entry that register_process fills, and the next one to try. */
  function AllocateFrom(s: Os, i: nat): (r: Option<Pid>)
    requires i <= MAX_RUNNING_PROCESS
    ensures r.Some? ==> r.value < MAX_RUNNING_PROCESS && r.value !in s.active
    ensures r.None? ==> forall q :: i <= q < MAX_RUNNING_PROCESS ==> q in s.active
    decreases MAX_RUNNING_PROCESS - i
  {
    if i == MAX_RUNNING_PROCESS then None else if i !in s.active then Some(i) else AllocateFrom(s, i + 1)
  }

  function Allocate(s: Os): (r: (Option<Pid>, nat))
    ensures r.0.Some? ==> r.0.value < MAX_RUNNING_PROCESS && r.0.value !in s.active
  {
    if s.nextTask < MAX_RUNNING_PROCESS && s.nextTask !in s.active then (Some(s.nextTask), s.nextTask + 1)
    else (AllocateFrom(s, 1), if s.nextTask == MAX_RUNNING_PROCESS then 2 else s.nextTask)
  }

  /** Entry `p` becomes a running process; the awaits field of its standard output handle is not initialised. */
  function Enter(s: Os, p: Pid, id: Id, garbage: bool): Os {
    s.(active := s.active + {p}, waitFor := s.waitFor - {p}, blocked := s.blocked - {p},
       files := (map k | k in s.files && k.pid != p :: s.files[k])[Slot(p, 0) := id],
       handles := s.handles[id := Handle(Console, p, Mode(false, true), garbage, 0)])
  }

  /** register_process. */
  function Create(s: Os, id: Id, garbage: bool): Os {
    var (p, next) := Allocate(s);
    if p.None? then s.(nextTask := next) else Enter(s, p.value, id, garbage).(nextTask := next)
  }

  /** Process `q` waits for process `p` or for any. */
  predicate WaitsFor(s: Os, q: Pid, p: Pid) {
    q in s.active && q in s.waitFor && (s.waitFor[q] == Anyone || s.waitFor[q] == Only(p))
  }

  /** The handle in slot `k`, if allocated, is freed on deletion; otherwise its callback will free it. */
  predicate Frees(s: Os, k: Slot) {
    k in s.files && s.files[k] in s.handles && !s.handles[s.files[k]].awaits
  }

  ghost predicate IsFreed(s: Os, p: Pid, id: Id) {
    exists k: Slot :: Frees(s, k) && k.pid == p && s.files[k] == id
  }

  ghost predicate IsOpen(s: Os, p: Pid, id: Id) {
    exists k: Slot :: k in s.files && k.pid == p && s.files[k] == id
  }

  ghost predicate ClearsReader(s: Os, p: Pid) {
    s.reader == Some(p) && exists k: Slot :: Frees(s, k) && k.pid == p && s.handles[s.files[k]].file.Console?
  }

  /** wait_wakeup: whoever waits for `p`, or for any, stops waiting. */
  function StillWaiting(s: Os, p: Pid): map<Pid, Target> {
    map q | q in s.waitFor && !WaitsFor(s, q, p) :: s.waitFor[q]
  }

  function StillBlocked(s: Os, p: Pid): map<Pid, Call> {
    map q | q in s.blocked && !WaitsFor(s, q, p) :: s.blocked[q]
  }

  ghost function StillOpen(s: Os, p: Pid): map<Slot, Id> {
    map k | k in s.files && !(k.pid == p && Frees(s, k)) :: s.files[k]
  }

  ghost function StillAllocated(s: Os, p: Pid): map<Id, Handle> {
    map id | id in s.handles && !IsFreed(s, p, id) :: if IsOpen(s, p, id) then s.handles[id].(awaits := false)
      else s.handles[id]
  }

  /** The process is stopped: it makes no further calls and gets no further answers. */
  function Stopped(s: Os, p: Pid): Os {
    s.(active := s.active - {p}, blocked := s.blocked - {p})
  }

  /** delete_process for a running process `p`: handles, console, then the processes that wait. */
  ghost function Kill(s: Os, p: Pid): Os {
    if p !in s.active || p == 0 then s
    else
      var t := Stopped(s, p);
      t.(waitFor := StillWaiting(t, p), blocked := StillBlocked(t, p), files := StillOpen(s, p),
        handles := StillAllocated(s, p),
         reader := if ClearsReader(s, p) then None else s.reader)
  }

  // ----------------------------------------------------------------------- runs

  datatype Event =
    | EvOpenSerial(p: Pid, mode: Mode, id: Id)
    | EvOpenNfs(p: Pid, file: nat, mode: Mode, allowed: Mode, id: Id)
    | EvRead(p: Pid, fd: nat, n: nat, input: bool)
    | EvWrite(p: Pid, fd: nat)
    | EvClose(p: Pid, fd: nat)
    | EvCallback(id: Id)
    | EvReceive(complete: bool)
    | EvWait(p: Pid, target: Target)
    | EvCreate(id: Id, garbage: bool)
    | EvKill(victim: Pid)

  /** Calls come from processes that can make them; handles are new addresses; callbacks answer issued calls. */
  predicate Possible(s: Os, e: Event) {
    match e
    case EvOpenSerial(p, _, id) => Enabled(s, p) && id !in s.handles
    case EvOpenNfs(p, _, _, _, id) => Enabled(s, p) && id !in s.handles
    case EvRead(p, _, _, _) => Enabled(s, p)
    case EvWrite(p, _) => Enabled(s, p)
    case EvClose(p, _) => Enabled(s, p)
    case EvCallback(id) => id in s.pending && id in s.handles
    case EvReceive(_) => true
    case EvWait(p, _) => Enabled(s, p)
    case EvCreate(id, _) => id !in s.handles
    case EvKill(_) => true
  }

  ghost function Step(s: Os, e: Event): Os
    requires Possible(s, e)
  {
    match e
    case EvOpenSerial(p, mode, id) => OpenSerial(s, p, mode, id)
    case EvOpenNfs(p, file, mode, allowed, id) => OpenNfs(s, p, file, mode, allowed, id)
    case EvRead(p, fd, n, input) => ReadFile(s, p, fd, n, input)
    case EvWrite(p, fd) => WriteFile(s, p, fd)
    case EvClose(p, fd) => CloseFile(s, p, fd)
    case EvCallback(id) => Callback(s, id)
    case EvReceive(complete) => Receive(s, complete)
    case EvWait(p, target) => Wait(s, p, target)
    case EvCreate(id, garbage) => Create(s, id, garbage)
    case EvKill(victim) => Kill(s, victim)
  }

  lemma OpenTables(s: Os, p: Pid, fd: nat, id: Id, file: File, mode: Mode, r: Option<Pid>)
    requires Inv(s) && Enabled(s, p) && id !in s.handles && Slot(p, fd) !in s.files && fd < PROCESS_MAX_FILES
    requires if file.Console? && mode.read then (s.reader.None? || s.reader == Some(p)) && r == Some(p)
      else r == s.reader
    ensures var t := WithHandle(s, p, fd, id, file, mode).(reader := r); TablesOk(t) && PendingOk(t)
  {
    hide ExpectedOk, OrphansOk, AnsweredOk, InputOk;
  }

  lemma OpenExpects(s: Os, p: Pid, fd: nat, id: Id, file: File, mode: Mode, r: Option<Pid>)
    requires Inv(s) && Enabled(s, p) && id !in s.handles && Slot(p, fd) !in s.files && fd < PROCESS_MAX_FILES
    requires if file.Console? && mode.read then (s.reader.None? || s.reader == Some(p)) && r == Some(p)
      else r == s.reader
    ensures ExpectedOk(WithHandle(s, p, fd, id, file, mode).(reader := r))
  {
  }

  lemma OpenOrphans(s: Os, p: Pid, fd: nat, id: Id, file: File, mode: Mode, r: Option<Pid>)
    requires Inv(s) && Enabled(s, p) && id !in s.handles && Slot(p, fd) !in s.files && fd < PROCESS_MAX_FILES
    requires if file.Console? && mode.read then (s.reader.None? || s.reader == Some(p)) && r == Some(p)
      else r == s.reader
    ensures var t := WithHandle(s, p, fd, id, file, mode).(reader := r); OrphansOk(t) && AnsweredOk(t)
  {
  }

  lemma OpenConsole(s: Os, p: Pid, fd: nat, id: Id, file: File, mode: Mode, r: Option<Pid>)
    requires Inv(s) && Enabled(s, p) && id !in s.handles && Slot(p, fd) !in s.files && fd < PROCESS_MAX_FILES
    requires if file.Console? && mode.read then (s.reader.None? || s.reader == Some(p)) && r == Some(p)
      else r == s.reader
    ensures ConsoleOk(WithHandle(s, p, fd, id, file, mode).(reader := r))
  {
    var t := WithHandle(s, p, fd, id, file, mode).(reader := r);
    assert t.active == s.active && t.reader == r;
    OpenReader(s, p, fd, id, file, mode, r);
    hide Inv, WithHandle, HasReader;
    forall k | Reads(t, k) && k.pid in t.active
      ensures t.reader == Some(k.pid) && !t.handles[t.files[k]].awaits
    {
      OpenReads(s, p, fd, id, file, mode, r, k);
    }
  }

  /** Any reader of the console is still the one recorded. */
  lemma OpenReads(s: Os, p: Pid, fd: nat, id: Id, file: File, mode: Mode, r: Option<Pid>, k: Slot)
    requires Inv(s) && id !in s.handles && Slot(p, fd) !in s.files && k.pid in s.active
    requires if file.Console? && mode.read then (s.reader.None? || s.reader == Some(p)) && r == Some(p)
      else r == s.reader
    ensures var t := WithHandle(s, p, fd, id, file, mode).(reader := r);
      Reads(t, k) ==> r == Some(k.pid) && !t.handles[t.files[k]].awaits
  {
    hide PendingOk, ExpectedOk, OrphansOk, AnsweredOk, InputOk, WaitsOk;
    assert k != Slot(p, fd) && Reads(WithHandle(s, p, fd, id, file, mode), k) ==> Reads(s, k);
  }

  lemma OpenReader(s: Os, p: Pid, fd: nat, id: Id, file: File, mode: Mode, r: Option<Pid>)
    requires Inv(s) && Enabled(s, p) && id !in s.handles && Slot(p, fd) !in s.files
    requires if file.Console? && mode.read then r == Some(p) else r == s.reader
    ensures r.Some? ==> r.value in s.active && HasReader(WithHandle(s, p, fd, id, file, mode).(reader := r), r.value)
  {
    hide TablesOk, PendingOk, ExpectedOk, OrphansOk, AnsweredOk, InputOk, WaitsOk;
    var t := WithHandle(s, p, fd, id, file, mode).(reader := r);
    if file.Console? && mode.read {
      assert Reads(t, Slot(p, fd));
    } else if r.Some? {
      var k: Slot :| Reads(s, k) && k.pid == r.value;
      assert Reads(t, k);
    }
  }

  lemma OpenUsers(s: Os, p: Pid, fd: nat, id: Id, file: File, mode: Mode, r: Option<Pid>)
    requires Inv(s) && Enabled(s, p) && id !in s.handles && Slot(p, fd) !in s.files && fd < PROCESS_MAX_FILES
    requires if file.Console? && mode.read then (s.reader.None? || s.reader == Some(p)) && r == Some(p)
      else r == s.reader
    ensures var t := WithHandle(s, p, fd, id, file, mode).(reader := r); InputOk(t) && WaitsOk(t)
  {
    hide TablesOk, PendingOk, ExpectedOk, OrphansOk, AnsweredOk, ConsoleOk;
  }

  lemma IssueTables(s: Os, p: Pid, fd: nat, n: nat)
    requires Inv(s) && Enabled(s, p) && Slot(p, fd) in s.files && fd < PROCESS_MAX_FILES
    requires s.files[Slot(p, fd)] in s.handles && s.handles[s.files[Slot(p, fd)]].file.Nfs?
    ensures var t := IssueRead(s, p, fd, n); TablesOk(t) && PendingOk(t)
  {
  }

  lemma IssueExpects(s: Os, p: Pid, fd: nat, n: nat)
    requires Inv(s) && Enabled(s, p) && Slot(p, fd) in s.files && fd < PROCESS_MAX_FILES
    requires s.files[Slot(p, fd)] in s.handles && s.handles[s.files[Slot(p, fd)]].file.Nfs?
    ensures ExpectedOk(IssueRead(s, p, fd, n))
  {
  }

  lemma IssueOrphans(s: Os, p: Pid, fd: nat, n: nat)
    requires Inv(s) && Enabled(s, p) && Slot(p, fd) in s.files && fd < PROCESS_MAX_FILES
    requires s.files[Slot(p, fd)] in s.handles && s.handles[s.files[Slot(p, fd)]].file.Nfs?
    ensures var t := IssueRead(s, p, fd, n); OrphansOk(t) && AnsweredOk(t)
  {
  }

  lemma IssueConsole(s: Os, p: Pid, fd: nat, n: nat)
    requires Inv(s) && Enabled(s, p) && Slot(p, fd) in s.files && fd < PROCESS_MAX_FILES
    requires s.files[Slot(p, fd)] in s.handles && s.handles[s.files[Slot(p, fd)]].file.Nfs?
    ensures ConsoleOk(IssueRead(s, p, fd, n))
  {
  }

  lemma IssueUsers(s: Os, p: Pid, fd: nat, n: nat)
    requires Inv(s) && Enabled(s, p) && Slot(p, fd) in s.files && fd < PROCESS_MAX_FILES
    requires s.files[Slot(p, fd)] in s.handles && s.handles[s.files[Slot(p, fd)]].file.Nfs?
    ensures var t := IssueRead(s, p, fd, n); InputOk(t) && WaitsOk(t)
  {
  }

  lemma InputTables(s: Os, p: Pid, fd: nat, n: nat, input: bool)
    requires Inv(s) && Enabled(s, p) && CanRead(s, p, fd) && s.handles[s.files[Slot(p, fd)]].file.Console?
    ensures var t := ReadFile(s, p, fd, n, input); TablesOk(t) && PendingOk(t)
  {
  }

  lemma InputExpects(s: Os, p: Pid, fd: nat, n: nat, input: bool)
    requires Inv(s) && Enabled(s, p) && CanRead(s, p, fd) && s.handles[s.files[Slot(p, fd)]].file.Console?
    ensures ExpectedOk(ReadFile(s, p, fd, n, input))
  {
  }

  lemma InputOrphans(s: Os, p: Pid, fd: nat, n: nat, input: bool)
    requires Inv(s) && Enabled(s, p) && CanRead(s, p, fd) && s.handles[s.files[Slot(p, fd)]].file.Console?
    ensures var t := ReadFile(s, p, fd, n, input); OrphansOk(t) && AnsweredOk(t)
  {
    hide TablesOk, PendingOk, ExpectedOk, ConsoleOk, InputOk, WaitsOk;
  }

  lemma InputConsole(s: Os, p: Pid, fd: nat, n: nat, input: bool)
    requires Inv(s) && Enabled(s, p) && CanRead(s, p, fd) && s.handles[s.files[Slot(p, fd)]].file.Console?
    ensures ConsoleOk(ReadFile(s, p, fd, n, input))
  {
  }

  lemma InputUsers(s: Os, p: Pid, fd: nat, n: nat, input: bool)
    requires Inv(s) && Enabled(s, p) && CanRead(s, p, fd) && s.handles[s.files[Slot(p, fd)]].file.Console?
    ensures var t := ReadFile(s, p, fd, n, input); InputOk(t) && WaitsOk(t)
  {
    hide PendingOk, ExpectedOk, OrphansOk, AnsweredOk, ConsoleOk;
  }

  lemma CloseTables(s: Os, p: Pid, fd: nat)
    requires Inv(s) && Enabled(s, p) && Slot(p, fd) in s.files
    ensures var t := CloseFile(s, p, fd); TablesOk(t) && PendingOk(t)
  {
    hide AnsweredOk, ConsoleOk, InputOk, WaitsOk;
  }

  lemma CloseExpects(s: Os, p: Pid, fd: nat)
    requires Inv(s) && Enabled(s, p) && Slot(p, fd) in s.files
    ensures ExpectedOk(CloseFile(s, p, fd))
  {
  }

  lemma CloseOrphans(s: Os, p: Pid, fd: nat)
    requires Inv(s) && Enabled(s, p) && Slot(p, fd) in s.files
    ensures var t := CloseFile(s, p, fd); OrphansOk(t) && AnsweredOk(t)
  {
  }

  lemma CloseConsole(s: Os, p: Pid, fd: nat)
    requires Inv(s) && Enabled(s, p) && Slot(p, fd) in s.files
    ensures ConsoleOk(CloseFile(s, p, fd))
  {
    hide PendingOk, ExpectedOk, OrphansOk, AnsweredOk, InputOk, WaitsOk;
  }

  lemma CloseUsers(s: Os, p: Pid, fd: nat)
    requires Inv(s) && Enabled(s, p) && Slot(p, fd) in s.files
    ensures var t := CloseFile(s, p, fd); InputOk(t) && WaitsOk(t)
  {
  }

  lemma CallbackTables(s: Os, id: Id)
    requires Inv(s) && id in s.pending
    ensures var t := Callback(s, id); TablesOk(t) && PendingOk(t)
  {
  }

  lemma CallbackExpects(s: Os, id: Id)
    requires Inv(s) && id in s.pending
    ensures ExpectedOk(Callback(s, id))
  {
  }

  lemma CallbackOrphans(s: Os, id: Id)
    requires Inv(s) && id in s.pending
    ensures var t := Callback(s, id); OrphansOk(t) && AnsweredOk(t)
  {
    hide TablesOk, ExpectedOk, ConsoleOk, InputOk, WaitsOk;
  }

  lemma CallbackConsole(s: Os, id: Id)
    requires Inv(s) && id in s.pending
    ensures ConsoleOk(Callback(s, id))
  {
    hide TablesOk;
  }

  lemma CallbackUsers(s: Os, id: Id)
    requires Inv(s) && id in s.pending
    ensures var t := Callback(s, id); InputOk(t) && WaitsOk(t)
  {
    hide TablesOk, OrphansOk, AnsweredOk, ConsoleOk;
  }

  lemma WaitTables(s: Os, p: Pid, target: Target)
    requires Inv(s) && Enabled(s, p)
    ensures var t := Wait(s, p, target); TablesOk(t) && PendingOk(t)
  {
  }

  lemma WaitExpects(s: Os, p: Pid, target: Target)
    requires Inv(s) && Enabled(s, p)
    ensures ExpectedOk(Wait(s, p, target))
  {
  }

  lemma WaitOrphans(s: Os, p: Pid, target: Target)
    requires Inv(s) && Enabled(s, p)
    ensures var t := Wait(s, p, target); OrphansOk(t) && AnsweredOk(t)
  {
  }

  lemma WaitConsole(s: Os, p: Pid, target: Target)
    requires Inv(s) && Enabled(s, p)
    ensures ConsoleOk(Wait(s, p, target))
  {
    if s.reader.Some? {
      var k: Slot :| Reads(s, k) && k.pid == s.reader.value;
      assert Reads(Wait(s, p, target), k);
    }
  }

  lemma WaitUsers(s: Os, p: Pid, target: Target)
    requires Inv(s) && Enabled(s, p)
    ensures var t := Wait(s, p, target); InputOk(t) && WaitsOk(t)
  {
    hide TablesOk, PendingOk, ExpectedOk, OrphansOk, AnsweredOk, ConsoleOk;
  }

  lemma EnterTables(s: Os, p: Pid, id: Id, garbage: bool)
    requires Inv(s) && id !in s.handles && p < MAX_RUNNING_PROCESS && p !in s.active
    ensures var t := Enter(s, p, id, garbage); TablesOk(t) && PendingOk(t)
  {
    EnterPending(s, p, id, garbage);
    var t := Enter(s, p, id, garbage);
    assert t.active == s.active + {p};
    forall k | k in t.files && k.pid in t.active
      ensures t.files[k] in t.handles && t.handles[t.files[k]].owner == k.pid && (k.pid == p <==> k == Slot(p, 0))
      ensures k != Slot(p, 0) ==> k in s.files && s.files[k] == t.files[k] && k.pid in s.active
      ensures t.files[k] == id <==> k == Slot(p, 0)
    {
      EnterFile(s, p, id, garbage, k);
    }
    hide PendingOk, ExpectedOk, OrphansOk, AnsweredOk, ConsoleOk, InputOk, WaitsOk, Enter;
  }

  lemma EnterFile(s: Os, p: Pid, id: Id, garbage: bool, k: Slot)
    requires Inv(s) && id !in s.handles && p < MAX_RUNNING_PROCESS && p !in s.active
    ensures var t := Enter(s, p, id, garbage); k in t.files && k.pid in t.active ==>
      && t.files[k] in t.handles && t.handles[t.files[k]].owner == k.pid && (k.pid == p <==> k == Slot(p, 0))
      && (k != Slot(p, 0) ==> k in s.files && s.files[k] == t.files[k] && k.pid in s.active)
      && (t.files[k] == id <==> k == Slot(p, 0))
  {
    hide PendingOk, ExpectedOk, OrphansOk, AnsweredOk, ConsoleOk, InputOk, WaitsOk;
  }

  lemma EnterPending(s: Os, p: Pid, id: Id, garbage: bool)
    requires Inv(s) && id !in s.handles
    ensures PendingOk(Enter(s, p, id, garbage))
  {
    hide TablesOk, ExpectedOk, OrphansOk, AnsweredOk, ConsoleOk, InputOk, WaitsOk;
  }

  lemma EnterExpects(s: Os, p: Pid, id: Id, garbage: bool)
    requires Inv(s) && id !in s.handles && p < MAX_RUNNING_PROCESS && p !in s.active
    ensures ExpectedOk(Enter(s, p, id, garbage))
  {
  }

  lemma EnterOrphans(s: Os, p: Pid, id: Id, garbage: bool)
    requires Inv(s) && id !in s.handles && p < MAX_RUNNING_PROCESS && p !in s.active
    ensures var t := Enter(s, p, id, garbage); OrphansOk(t) && AnsweredOk(t)
  {
    hide TablesOk, ExpectedOk, ConsoleOk, InputOk, WaitsOk;
  }

  lemma EnterConsole(s: Os, p: Pid, id: Id, garbage: bool)
    requires Inv(s) && id !in s.handles && p < MAX_RUNNING_PROCESS && p !in s.active
    ensures ConsoleOk(Enter(s, p, id, garbage))
  {
    if s.reader.Some? {
      var k: Slot :| Reads(s, k) && k.pid == s.reader.value;
      assert Reads(Enter(s, p, id, garbage), k);
    }
  }

  lemma EnterUsers(s: Os, p: Pid, id: Id, garbage: bool)
    requires Inv(s) && id !in s.handles && p < MAX_RUNNING_PROCESS && p !in s.active
    ensures var t := Enter(s, p, id, garbage); InputOk(t) && WaitsOk(t)
  {
  }

  lemma KillTables(s: Os, p: Pid)
    requires Inv(s) && p in s.active && p != 0
    ensures var t := Kill(s, p); TablesOk(t) && PendingOk(t)
  {
    hide ExpectedOk, AnsweredOk, ConsoleOk, InputOk, WaitsOk;
  }

  lemma KillExpects(s: Os, p: Pid)
    requires Inv(s) && p in s.active && p != 0
    ensures ExpectedOk(Kill(s, p))
  {
    hide TablesOk, PendingOk, OrphansOk, AnsweredOk, ConsoleOk, InputOk;
    var t := Kill(s, p);
    forall id | id in t.pending && id in t.handles && t.handles[id].awaits
      ensures Expected(t, id)
    {
      assert Expected(s, id);
    }
  }

  lemma KillOrphans(s: Os, p: Pid)
    requires Inv(s) && p in s.active && p != 0
    ensures var t := Kill(s, p); OrphansOk(t) && AnsweredOk(t)
  {
    hide PendingOk, ExpectedOk, ConsoleOk, InputOk, WaitsOk;
  }

  lemma KillConsole(s: Os, p: Pid)
    requires Inv(s) && p in s.active && p != 0
    ensures ConsoleOk(Kill(s, p))
  {
  }

  lemma KillUsers(s: Os, p: Pid)
    requires Inv(s) && p in s.active && p != 0
    ensures var t := Kill(s, p); InputOk(t) && WaitsOk(t)
  {
    hide TablesOk, PendingOk, ExpectedOk, OrphansOk, AnsweredOk, ConsoleOk;
  }

  lemma ReceiveTables(s: Os, complete: bool)
    requires Inv(s)
    ensures var t := Receive(s, complete); TablesOk(t) && PendingOk(t)
  {
    hide ReadingFrom;
  }

  lemma ReceiveExpects(s: Os, complete: bool)
    requires Inv(s)
    ensures ExpectedOk(Receive(s, complete))
  {
    hide ReadingFrom;
  }

  lemma ReceiveOrphans(s: Os, complete: bool)
    requires Inv(s)
    ensures var t := Receive(s, complete); OrphansOk(t) && AnsweredOk(t)
  {
    hide ReadingFrom;
  }

  lemma ReceiveConsole(s: Os, complete: bool)
    requires Inv(s)
    ensures ConsoleOk(Receive(s, complete))
  {
    hide ReadingFrom, TablesOk, ExpectedOk, InputOk, WaitsOk;
    if s.reader.Some? {
      var k: Slot :| Reads(s, k) && k.pid == s.reader.value;
      assert Reads(Receive(s, complete), k);
    }
  }

  lemma ReceiveUsers(s: Os, complete: bool)
    requires Inv(s)
    ensures var t := Receive(s, complete); InputOk(t) && WaitsOk(t)
  {
    hide ReadingFrom;
  }

  lemma ReceiveKeeps(s: Os, complete: bool)
    requires Inv(s)
    ensures Inv(Receive(s, complete))
  {
    hide TablesOk, PendingOk, ExpectedOk, OrphansOk, AnsweredOk, ConsoleOk, InputOk, WaitsOk, Receive;
    ReceiveTables(s, complete);
    ReceiveExpects(s, complete);
    ReceiveOrphans(s, complete);
    ReceiveConsole(s, complete);
    ReceiveUsers(s, complete);
  }

  lemma CreateKeeps(s: Os, id: Id, garbage: bool)
    requires Inv(s) && id !in s.handles
    ensures Inv(Create(s, id, garbage))
  {
    hide TablesOk, PendingOk, ExpectedOk, OrphansOk, AnsweredOk, ConsoleOk, InputOk, WaitsOk, Enter, Allocate;
    var (p, next) := Allocate(s);
    if p.Some? {
      EnterTables(s, p.value, id, garbage);
      EnterExpects(s, p.value, id, garbage);
      EnterOrphans(s, p.value, id, garbage);
      EnterConsole(s, p.value, id, garbage);
      EnterUsers(s, p.value, id, garbage);
      NextTask(Enter(s, p.value, id, garbage), next);
    } else {
      NextTask(s, next);
    }
  }

  lemma NextTask(s: Os, next: nat)
    requires Inv(s)
    ensures Inv(s.(nextTask := next))
  {
    var t := s.(nextTask := next);
    if s.reader.Some? {
      var k: Slot :| Reads(s, k) && k.pid == s.reader.value;
      assert Reads(t, k);
    }
  }

  lemma KillKeeps(s: Os, p: Pid)
    requires Inv(s)
    ensures Inv(Kill(s, p))
  {
    hide TablesOk, PendingOk, ExpectedOk, OrphansOk, AnsweredOk, ConsoleOk, InputOk, WaitsOk;
    if p in s.active && p != 0 {
      KillTables(s, p);
      KillExpects(s, p);
      KillOrphans(s, p);
      KillConsole(s, p);
      KillUsers(s, p);
    }
  }

  lemma CloseKeeps(s: Os, p: Pid, fd: nat)
    requires Inv(s) && Enabled(s, p)
    ensures Inv(CloseFile(s, p, fd))
  {
    hide TablesOk, PendingOk, ExpectedOk, OrphansOk, AnsweredOk, ConsoleOk, InputOk, WaitsOk;
    if Slot(p, fd) in s.files {
      CloseTables(s, p, fd);
      CloseExpects(s, p, fd);
      CloseOrphans(s, p, fd);
      CloseConsole(s, p, fd);
      CloseUsers(s, p, fd);
    }
  }

  lemma CallbackKeeps(s: Os, id: Id)
    requires Inv(s) && id in s.pending
    ensures id in s.handles && s.pending[id] == 1 && Inv(Callback(s, id))
  {
    assert id in s.handles && s.pending[id] == 1 by { PendingOnce(s, id); }
    hide TablesOk, PendingOk, ExpectedOk, OrphansOk, AnsweredOk, ConsoleOk, InputOk, WaitsOk, Callback;
    CallbackTables(s, id);
    CallbackExpects(s, id);
    CallbackOrphans(s, id);
    CallbackConsole(s, id);
    CallbackUsers(s, id);
  }

  lemma PendingOnce(s: Os, id: Id)
    requires PendingOk(s) && id in s.pending
    ensures id in s.handles && s.pending[id] == 1
  {
  }

  lemma OpenKeeps(s: Os, p: Pid, fd: nat, id: Id, file: File, mode: Mode, r: Option<Pid>)
    requires Inv(s) && Enabled(s, p) && id !in s.handles && Slot(p, fd) !in s.files && fd < PROCESS_MAX_FILES
    requires if file.Console? && mode.read then (s.reader.None? || s.reader == Some(p)) && r == Some(p)
      else r == s.reader
    ensures Inv(WithHandle(s, p, fd, id, file, mode).(reader := r))
  {
    hide TablesOk, PendingOk, ExpectedOk, OrphansOk, AnsweredOk, ConsoleOk, InputOk, WaitsOk, WithHandle;
    OpenTables(s, p, fd, id, file, mode, r);
    OpenExpects(s, p, fd, id, file, mode, r);
    OpenOrphans(s, p, fd, id, file, mode, r);
    OpenConsole(s, p, fd, id, file, mode, r);
    OpenUsers(s, p, fd, id, file, mode, r);
  }

  lemma IssueKeeps(s: Os, p: Pid, fd: nat, n: nat)
    requires Inv(s) && Enabled(s, p) && Slot(p, fd) in s.files && fd < PROCESS_MAX_FILES
    requires s.files[Slot(p, fd)] in s.handles && s.handles[s.files[Slot(p, fd)]].file.Nfs?
    ensures Inv(IssueRead(s, p, fd, n))
  {
    hide TablesOk, PendingOk, ExpectedOk, OrphansOk, AnsweredOk, ConsoleOk, InputOk, WaitsOk, IssueRead;
    IssueTables(s, p, fd, n);
    IssueExpects(s, p, fd, n);
    IssueOrphans(s, p, fd, n);
    IssueConsole(s, p, fd, n);
    IssueUsers(s, p, fd, n);
  }

  lemma ReadKeeps(s: Os, p: Pid, fd: nat, n: nat, input: bool)
    requires Inv(s) && Enabled(s, p)
    ensures Inv(ReadFile(s, p, fd, n, input))
  {
    hide TablesOk, PendingOk, ExpectedOk, OrphansOk, AnsweredOk, ConsoleOk, InputOk, WaitsOk, IssueRead;
    if CanRead(s, p, fd) {
      if s.handles[s.files[Slot(p, fd)]].file.Nfs? {
        IssueKeeps(s, p, fd, n);
      } else {
        InputTables(s, p, fd, n, input);
        InputExpects(s, p, fd, n, input);
        InputOrphans(s, p, fd, n, input);
        InputConsole(s, p, fd, n, input);
        InputUsers(s, p, fd, n, input);
      }
    }
  }

  lemma WriteKeeps(s: Os, p: Pid, fd: nat)
    requires Inv(s) && Enabled(s, p)
    ensures Inv(WriteFile(s, p, fd))
  {
    if CanWrite(s, p, fd) && s.handles[s.files[Slot(p, fd)]].file.Nfs? {
      var id := s.files[Slot(p, fd)];
      IssueKeeps(s, p, fd, s.handles[id].toRead);
      hide Inv;
      assert s.handles[id := s.handles[id].(toRead := s.handles[id].toRead)] == s.handles;
    }
  }

  lemma OpenSerialKeeps(s: Os, p: Pid, mode: Mode, id: Id)
    requires Inv(s) && Enabled(s, p) && id !in s.handles
    ensures Inv(OpenSerial(s, p, mode, id))
  {
    hide Inv, FreeFrom;
    var fd := FreeFrom(s, p, 0);
    if fd.Some? && (mode.read ==> s.reader.None? || s.reader == Some(p)) {
      OpenKeeps(s, p, fd.value, id, Console, mode, if mode.read then Some(p) else s.reader);
    }
  }

  lemma OpenNfsKeeps(s: Os, p: Pid, file: nat, mode: Mode, allowed: Mode, id: Id)
    requires Inv(s) && Enabled(s, p) && id !in s.handles
    ensures Inv(OpenNfs(s, p, file, mode, allowed, id))
  {
    hide Inv, FreeFrom;
    var fd := FreeFrom(s, p, 0);
    if fd.Some? {
      OpenKeeps(s, p, fd.value, id, Nfs(file), mode, s.reader);
    }
  }

  lemma WaitKeeps(s: Os, p: Pid, target: Target)
    requires Inv(s) && Enabled(s, p)
    ensures Inv(Wait(s, p, target))
  {
    hide TablesOk, PendingOk, ExpectedOk, OrphansOk, AnsweredOk, ConsoleOk, InputOk, WaitsOk, Wait;
    WaitTables(s, p, target);
    WaitExpects(s, p, target);
    WaitOrphans(s, p, target);
    WaitConsole(s, p, target);
    WaitUsers(s, p, target);
  }

  /** Every step keeps the invariant. */
  lemma StepKeeps(s: Os, e: Event)
    requires Inv(s) && Possible(s, e)
    ensures Inv(Step(s, e))
  {
    hide Inv, OpenSerial, OpenNfs, ReadFile, WriteFile, CloseFile, Callback, Receive, Wait, Create, Kill;
    match e {
      case EvOpenSerial(p, mode, id) => OpenSerialKeeps(s, p, mode, id);
      case EvOpenNfs(p, file, mode, allowed, id) => OpenNfsKeeps(s, p, file, mode, allowed, id);
      case EvRead(p, fd, n, input) => ReadKeeps(s, p, fd, n, input);
      case EvWrite(p, fd) => WriteKeeps(s, p, fd);
      case EvClose(p, fd) => CloseKeeps(s, p, fd);
      case EvCallback(id) => CallbackKeeps(s, id);
      case EvReceive(complete) => ReceiveKeeps(s, complete);
      case EvWait(p, target) => WaitKeeps(s, p, target);
      case EvCreate(id, garbage) => CreateKeeps(s, id, garbage);
      case EvKill(p) => KillKeeps(s, p);
    }
  }

  /** Process 0 is the server itself and makes no calls. */
  const Start := Os({0}, map[], map[], map[], None, multiset{}, map[], 1)

  ghost predicate PossibleRun(s: Os, es: seq<Event>)
    decreases |es|
  {
    es != [] ==> Possible(s, es[0]) && PossibleRun(Step(s, es[0]), es[1..])
  }

  ghost function Run(s: Os, es: seq<Event>): Os
    requires PossibleRun(s, es)
    decreases |es|
  {
    if es == [] then s else Run(Step(s, es[0]), es[1..])
  }

  lemma {:induction false} RunKeeps(s: Os, es: seq<Event>)
    requires Inv(s) && PossibleRun(s, es)
    ensures Inv(Run(s, es))
    decreases |es|
  {
    if es != [] {
      StepKeeps(s, es[0]);
      hide Inv, Step, Possible;
      RunKeeps(Step(s, es[0]), es[1..]);
    }
  }

  // ----------------------------------------------------------------- consequences

  lemma StartOk()
    ensures Inv(Start)
  {
  }

  /** The free calls that deleting process `p` makes for its slots from `i` on. */
  function KillCalls(s: Os, p: Pid, i: nat): seq<Id>
    requires i <= PROCESS_MAX_FILES
    decreases PROCESS_MAX_FILES - i
  {
    if i == PROCESS_MAX_FILES then []
    else
      var k := Slot(p, i);
      (if k in s.files && (s.files[k] in s.handles ==> !s.handles[s.files[k]].awaits) then [s.files[k]] else []) +
        KillCalls(s, p, i + 1)
  }

  /** The handles a step passes to free, in order. */
  function FreeCalls(s: Os, e: Event): seq<Id> {
    match e
    case EvClose(p, fd) => if Slot(p, fd) in s.files then [s.files[Slot(p, fd)]] else []
    case EvCallback(id) => if id in s.handles && !s.handles[id].awaits then [id] else []
    case EvKill(p) => if p in s.active && p != 0 then KillCalls(s, p, 0) else []
    case _ => []
  }

  lemma {:induction false} KillCallsAre(s: Os, p: Pid, i: nat)
    requires Inv(s) && p in s.active && i <= PROCESS_MAX_FILES
    ensures NoDup(KillCalls(s, p, i))
    ensures forall id :: id in KillCalls(s, p, i) <==>
      exists k :: Frees(s, k) && k.pid == p && i <= k.fd && s.files[k] == id
    decreases PROCESS_MAX_FILES - i
  {
    if i < PROCESS_MAX_FILES {
      KillCallsAre(s, p, i + 1);
      var k, rest := Slot(p, i), KillCalls(s, p, i + 1);
      FreedBelow16(s, p);
      assert k in s.files ==> s.files[k] in s.handles;
      forall l: Slot | Frees(s, l) && l.pid == p && i <= l.fd
        ensures l == k || i + 1 <= l.fd
      {
        assert l == Slot(l.pid, l.fd);
      }
      assert Frees(s, k) ==> s.files[k] !in rest;
    } else {
      FreedBelow16(s, p);
    }
  }

  lemma FreedBelow16(s: Os, p: Pid)
    requires Inv(s) && p in s.active
    ensures forall k: Slot :: k in s.files && k.pid == p ==> k.fd < PROCESS_MAX_FILES
  {
  }

  /**
   Every handle a step frees is allocated and freed once; afterwards no answer for it is
   outstanding and no running process's table holds it. Nothing else ceases to be allocated.
   */
  lemma FreesSafe(s: Os, e: Event)
    requires Inv(s) && Possible(s, e)
    ensures var calls, t := FreeCalls(s, e), Step(s, e);
      && NoDup(calls)
      && (forall id :: id in calls ==> id in s.handles && id !in t.handles && id !in t.pending)
      && (forall id, k :: id in calls ==> !Holds(t, k, id))
      && (forall id :: id in s.handles && id !in t.handles ==> id in calls)
  {
    StepKeeps(s, e);
    FreesGone(s, e);
    FreeCallsOnce(s, e);
    assert TablesOk(Step(s, e)) && PendingOk(Step(s, e));
    hide Inv, Step, FreeCalls;
  }

  lemma FreeCallsOnce(s: Os, e: Event)
    requires Inv(s) && Possible(s, e)
    ensures NoDup(FreeCalls(s, e))
  {
    if e.EvKill? && e.victim in s.active {
      KillCallsAre(s, e.victim, 0);
    }
  }

  /** Exactly the handles passed to free cease to be allocated. */
  lemma FreesGone(s: Os, e: Event)
    requires Inv(s) && Possible(s, e)
    ensures forall id :: id in FreeCalls(s, e) <==> id in s.handles && id !in Step(s, e).handles
  {
    match e {
      case EvKill(p) =>
        if p in s.active && p != 0 {
          KillCallsAre(s, p, 0);
        }
      case EvClose(p, fd) => assert Slot(p, fd) in s.files ==> s.files[Slot(p, fd)] in s.handles;
      case EvCallback(_) =>
      case _ => OtherFrees(s, e);
    }
  }

  lemma OtherFrees(s: Os, e: Event)
    requires Possible(s, e) && !e.EvKill? && !e.EvClose? && !e.EvCallback?
    ensures forall id :: id in s.handles ==> id in Step(s, e).handles
  {
    hide FreeFrom, ReadingFrom, Allocate;
  }

  /**
   A callback answers a running process that is blocked in exactly this call, or frees the handle
   and answers nobody.
   */
  lemma CallbackExact(s: Os, id: Id)
    requires Inv(s) && id in s.pending
    ensures var h, t := s.handles[id], Callback(s, id);
      if h.awaits then h.owner in s.active && h.owner in s.blocked && s.blocked[h.owner].OnReply? &&
        s.blocked[h.owner].id == id
        && Enabled(t, h.owner) && t.handles == s.handles
      else t.blocked == s.blocked && t.handles == s.handles - {id}
  {
    assert s.handles[id].awaits ==> Expected(s, id);
  }

  /** Console input is handed to the recorded reader, which is blocked in a read on that handle. */
  lemma InputExpected(s: Os, k: Slot)
    requires Inv(s) && Reading(s, k) && k.pid in s.active
    ensures s.reader == Some(k.pid) && k.pid in s.blocked && s.blocked[k.pid] == OnInput(k.fd, s.files[k])
  {
    assert Reads(s, k);
  }

  /** All console handles open for reading belong to one process, and there is a reader only if one is open. */
  lemma OneReader(s: Os)
    requires Inv(s)
    ensures forall k, l :: Reads(s, k) && Reads(s, l) && k.pid in s.active && l.pid in s.active ==> k.pid == l.pid
    ensures s.reader.Some? <==> exists k: Slot :: Reads(s, k) && k.pid in s.active
  {
    if s.reader.Some? {
      var k: Slot :| Reads(s, k) && k.pid == s.reader.value;
      assert Reads(s, k) && k.pid in s.active;
    }
  }

  /** Deletion wakes exactly the processes that wait for the one deleted or for any; nobody is left waiting for it. */
  lemma WakeExact(s: Os, p: Pid, q: Pid)
    requires Inv(s) && p in s.active && p != 0 && q in s.active && q != p
    ensures var t := Kill(s, p);
      && q in t.active
      && (WaitsFor(s, q, p) ==> Enabled(t, q) && q !in t.waitFor)
      && (!WaitsFor(s, q, p) ==> (q in t.waitFor <==> q in s.waitFor) && (q in t.blocked <==> q in s.blocked))
      && (q in t.waitFor ==> t.waitFor[q].Only? && t.waitFor[q].pid in t.active)
  {
    hide Frees, IsFreed, IsOpen, ClearsReader;
  }

  /** An entry is found exactly when one is free; a running process's entry is never handed out. */
  lemma AllocateExact(s: Os)
    requires 0 in s.active
    ensures Allocate(s).0.None? <==> forall q: Pid :: q < MAX_RUNNING_PROCESS ==> q in s.active
    ensures Allocate(s).0.Some? ==> Allocate(s).0.value != 0
  {
    var r := AllocateFrom(s, 1);
  }

  /** Opening the console and closing it again leaves everything as it was, the recorded reader included. */
  lemma OpenCloseConsole(s: Os, p: Pid, mode: Mode, id: Id)
    requires Inv(s) && Enabled(s, p) && id !in s.handles && FreeFrom(s, p, 0).Some?
    requires mode.read ==> s.reader.None? || s.reader == Some(p)
    ensures CloseFile(OpenSerial(s, p, mode, id), p, FreeFrom(s, p, 0).value) == s
  {
    var fd := FreeFrom(s, p, 0).value;
    hide FreeFrom, Inv;
    var k, t := Slot(p, fd), OpenSerial(s, p, mode, id);
    assert t.files - {k} == s.files && t.handles - {id} == s.handles;
    if mode.read {
      OpenedLast(s, p, mode, id, fd);
    }
    hide LastReader;
  }

  /** The new descriptor is its process's only one that reads, unless the process was the reader before. */
  lemma OpenedLast(s: Os, p: Pid, mode: Mode, id: Id, fd: nat)
    requires Inv(s) && id !in s.handles && FreeFrom(s, p, 0) == Some(fd) && p in s.active && mode.read
    requires s.reader.None? || s.reader == Some(p)
    ensures LastReader(OpenSerial(s, p, mode, id), Slot(p, fd)) <==> s.reader.None?
  {
    hide FreeFrom, PendingOk, ExpectedOk, OrphansOk, AnsweredOk, InputOk, WaitsOk;
    var k, t := Slot(p, fd), OpenSerial(s, p, mode, id);
    if s.reader == Some(p) {
      var l: Slot :| Reads(s, l) && l.pid == p;
      assert Reads(t, l) && l != k && l.fd < PROCESS_MAX_FILES;
    } else {
      forall l: Slot | l.pid == p && l != k && l.fd < PROCESS_MAX_FILES
        ensures !Reads(t, l)
      {
        assert !Reads(s, l);
      }
    }
  }

  /** A complete line answers a process that is blocked in a console read, and nobody else. */
  lemma ReceiveAnswers(s: Os, q: Pid)
    requires Inv(s) && q in s.blocked && q in s.active
    ensures q !in Receive(s, true).blocked <==>
      s.reader == Some(q) && ReadingFrom(s, q, 0).Some?
  {
    hide ReadingFrom;
    if s.reader.Some? && ReadingFrom(s, s.reader.value, 0).Some? {
      var k := Slot(s.reader.value, ReadingFrom(s, s.reader.value, 0).value);
      assert s.handles[s.files[k]].owner == k.pid;
    }
  }

  /** Process `q` waits as before. */
  predicate StillWaits(s: Os, t: Os, q: Pid) {
    && q in t.active && q in s.waitFor && q in t.waitFor && t.waitFor[q] == s.waitFor[q]
    && q in t.blocked && t.blocked[q].OnExit?
  }

  /**
   A process that waits is released by the end of the one it waits for, or of any if it waits for
   any, and by nothing else.
   */
  lemma WaitsUntilExit(s: Os, e: Event, q: Pid)
    requires Inv(s) && Possible(s, e) && q in s.active && q in s.waitFor
    ensures var t := Step(s, e);
      if e == EvKill(q) && q != 0 then q !in t.active
      else if e.EvKill? && e.victim in s.active && e.victim != 0 && WaitsFor(s, q, e.victim) then Enabled(t, q)
      else StillWaits(s, t, q)
  {
    assert q in s.blocked && s.blocked[q].OnExit?;
    match e {
      case EvKill(p) => KillWaiter(s, p, q);
      case EvCallback(id) => assert s.handles[id].awaits ==> Expected(s, id);
      case EvReceive(complete) => ReceiveWaiter(s, complete, q);
      case EvCreate(id, garbage) => CreateWaiter(s, id, garbage, q);
      case _ => CallWaiter(s, e, q);
    }
  }

  lemma KillWaiter(s: Os, p: Pid, q: Pid)
    requires q in s.active && q in s.waitFor && q in s.blocked && s.blocked[q].OnExit?
    ensures var t := Kill(s, p);
      if p == q && q != 0 then q !in t.active
      else if p in s.active && p != 0 && WaitsFor(s, q, p) then Enabled(t, q)
      else StillWaits(s, t, q)
  {
    hide Frees, IsFreed, IsOpen, ClearsReader;
  }

  /** The process whose console read is answered is not one that waits. */
  lemma ReceiveWaiter(s: Os, complete: bool, q: Pid)
    requires Inv(s) && q in s.active && q in s.waitFor && q in s.blocked && s.blocked[q].OnExit?
    ensures StillWaits(s, Receive(s, complete), q)
  {
    hide ReadingFrom;
  }

  lemma CreateWaiter(s: Os, id: Id, garbage: bool, q: Pid)
    requires q in s.active && q in s.waitFor && q in s.blocked && s.blocked[q].OnExit?
    ensures StillWaits(s, Create(s, id, garbage), q)
  {
    hide AllocateFrom;
  }

  /** Calls of other processes. */
  lemma CallWaiter(s: Os, e: Event, q: Pid)
    requires Possible(s, e) && q in s.active && q in s.waitFor && q in s.blocked && s.blocked[q].OnExit?
    requires !e.EvKill? && !e.EvCallback? && !e.EvReceive? && !e.EvCreate?
    ensures StillWaits(s, Step(s, e), q)
  {
    hide FreeFrom, LastReader;
  }
}
