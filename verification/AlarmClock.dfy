/**
 The clock driver: the linked list of alarms, the time stamp kept in two parts,
 and the countdown timer, proved against the machine of Alarms.
 */
module AlarmClock {
  import opened Seqs
  import opened ClockTime
  import opened Alarms
  import opened AlarmRequests

  class AlarmTimer {
    const id: nat
    const owner: nat
    const expiration: nat
    var next: AlarmTimer?

    constructor (id: nat, owner: nat, expiration: nat)
      ensures this.id == id && this.owner == owner && this.expiration == expiration && next == null
    {
      this.id, this.owner, this.expiration := id, owner, expiration;
      next := null;
    }

    function Content(): Alarm { Alarm(id, owner, expiration) }
  }

  function Contents(nodes: seq<AlarmTimer>): seq<Alarm> {
    seq(|nodes|, i requires 0 <= i < |nodes| => nodes[i].Content())
  }

  datatype Status = Registered | Uninitialised | Failed

  class Driver {
    var head: AlarmTimer?
    /** current_timestamp_high. */
    var high: nat
    /** Ticks since the counter was reset; the time stamp register shows the low 32 bits. */
    var ticks: nat
    var initialized: bool
    /** The one-shot countdown. */
    var armed: Option<Timer>
    ghost var nodes: seq<AlarmTimer>
    ghost var log: seq<Alarm>
    ghost var fired: seq<Fired>
    /** The handler's last reading, and how many alarms it knew. */
    ghost var read: nat
    ghost var known: nat
    var registered: nat

    ghost predicate First()
      reads this`head, this`nodes
    {
      head == if nodes == [] then null else nodes[0]
    }

    ghost predicate Linked()
      reads this`head, this`nodes, nodes
    {
      && (forall i, j :: 0 <= i < j < |nodes| ==> nodes[i] != nodes[j])
      && head == (if nodes == [] then null else nodes[0])
      && (forall i {:trigger nodes[i].next} :: 0 <= i < |nodes| - 1 ==> nodes[i].next == nodes[i + 1])
      && (nodes != [] ==> nodes[|nodes| - 1].next == null)
    }

    ghost predicate Valid()
      reads this, nodes
    {
      Linked() && First() && high == High(ticks / EPOCH) && registered == |log| &&
        forall n :: n in nodes ==> n.id < registered
    }

    ghost function St(): Clock
      reads this
    {
      Clock(ticks, log, Contents(nodes), armed, fired, read, known)
    }

    constructor ()
      ensures Valid() && St() == Start && !initialized
    {
      head, high, ticks, armed, registered, initialized := null, 0, 0, None, 0, false;
      nodes, log, fired, read, known := [], [], [], 0, 0;
    }

    /** The part of start_timer that concerns this model. */
    method StartTimer()
      requires Valid() && !initialized
      modifies this`initialized
      ensures Valid() && initialized
    {
      initialized := true;
    }

    /** The loop of timer_queue_insert: up to the first alarm that expires later, or to the end. */
    method FindPlace(n: AlarmTimer) returns (prev: AlarmTimer?, at: AlarmTimer?, ghost k: nat)
      requires Linked()
      ensures k <= |nodes| && Contents(nodes[..k] + [n] + nodes[k..]) == Insert(Contents(nodes), n.Content())
      ensures at == (if k < |nodes| then nodes[k] else null) && prev == (if k > 0 then nodes[k - 1] else null)
    {
      InsertBegin(nodes, n.Content());
      hide Insert, Contents;
      prev, at, k := null, head, 0;
      while at != null
        invariant 0 <= k <= |nodes|
        invariant at == (if k < |nodes| then nodes[k] else null)
        invariant prev == (if k > 0 then nodes[k - 1] else null)
        invariant Insert(Contents(nodes), n.Content()) ==
          Contents(nodes[..k]) + Insert(Contents(nodes[k..]), n.Content())
        decreases |nodes| - k
      {
        if n.expiration < at.expiration {
          break;
        }
        InsertBehind(nodes, k, n.Content());
        prev := at;
        at := at.next;
        k := k + 1;
      }
      InsertHere(nodes, k, n);
    }

    /** The links that put `n` at position `k`. */
    method LinkIn(n: AlarmTimer, prev: AlarmTimer?, at: AlarmTimer?, ghost k: nat)
      requires Linked() && n !in nodes && k <= |nodes|
      requires at == (if k < |nodes| then nodes[k] else null) && prev == (if k > 0 then nodes[k - 1] else null)
      modifies this`head, this`nodes, nodes, n
      ensures Linked() && First() && nodes == old(nodes[..k] + [n] + nodes[k..])
    {
      ghost var was := nodes;
      n.next := at;
      if prev == null {
        head := n;
      } else {
        prev.next := n;
      }
      nodes := was[..k] + [n] + was[k..];
      assert nodes[k] == n;
      assert forall i :: 0 <= i < k ==> nodes[i] == was[i];
      assert forall i :: k < i < |nodes| ==> nodes[i] == was[i - 1];
    }

    /**
     timer_queue_insert: links the new alarm in front of the first one that expires later. The
     empty list, which the source treats first, needs no case of its own here.
     */
    method TimerQueueInsert(n: AlarmTimer)
      requires Linked() && n !in nodes && n.next == null
      modifies this`head, this`nodes, nodes, n
      ensures Linked() && First() && Contents(nodes) == Insert(old(Contents(nodes)), n.Content())
      ensures nodes != [] && forall m :: m in nodes <==> m == n || m in old(nodes)
    {
      hide Insert, Contents, Linked;
      ghost var was := nodes;
      var prev, at, k := FindPlace(n);
      LinkIn(n, prev, at, k);
      assert was == was[..k] + was[k..];
    }

    /** timer_queue_pop. */
    method TimerQueuePop() returns (top: AlarmTimer?)
      requires Linked()
      modifies this`head, this`nodes
      ensures Linked() && First()
      ensures top == null <==> old(nodes) == []
      ensures top == null ==> nodes == []
      ensures top != null ==> old(nodes) == [top] + nodes
    {
      if head != null {
        top := head;
        head := head.next;
        nodes := nodes[1..];
      } else {
        top := null;
      }
    }

    /** get_time_stamp; before start_timer it returns the error code as a 64-bit number. */
    method GetTimeStamp() returns (now: nat)
      requires Valid()
      ensures now == if initialized then Stamp(ticks) else WORD64 - 1
    {
      if !initialized {
        return WORD64 - 1;
      }
      var low := ticks % EPOCH;
      now := high + TicksToMicroseconds(low);
    }

    /** timer_overflow_irq: the high part of `k` overflows becomes that of one more. */
    method TimerOverflowIrq(ghost k: nat)
      requires high == High(k)
      modifies this`high
      ensures high == High(k + 1)
    {
      high := high + TicksToMicroseconds(0xFFFF_FFFF);
    }

    /** Time passes; every overflow of the register is handled before the next reading. */
    method Elapse(k: nat)
      requires Valid()
      modifies this`ticks, this`high
      ensures Valid() && ticks == old(ticks) + k
    {
      ghost var e: nat := ticks / EPOCH;
      var overflows: nat := (ticks + k) / EPOCH - ticks / EPOCH;
      hide High, TicksToMicroseconds, Linked;
      for i := 0 to overflows
        invariant high == High(e + i) && ticks == old(ticks)
      {
        TimerOverflowIrq(e + i);
      }
      ticks := ticks + k;
    }

    /** The timer is set, `late` ticks after the time was read. */
    method SetTimer0(delay: nat, late: nat)
      modifies this`armed
      ensures armed == Some(Timer(ticks + Countdown(delay), late, delay))
    {
      armed := Some(Timer(ticks + Countdown(delay), late, delay));
    }

    /** register_timer: an error before start_timer or without memory, and then nothing changes. */
    method RegisterTimer(delay: nat, client: nat, memory: bool, lag: nat) returns (status: Status)
      requires Valid()
      modifies this, nodes
      ensures Valid() && initialized == old(initialized)
      ensures status == if !old(initialized) then Uninitialised else if !memory then Failed else Registered
      ensures St() == if status == Registered then Alarms.Registered(old(St()), client, delay, lag) else old(St())
      ensures log == if status == Registered
                     then old(log) + [Alarm(|old(log)|, client, (Stamp(old(ticks)) + delay) % WORD64)] else old(log)
    {
      RegisteredLog(St(), client, delay, lag);
      hide Alarms.Registered, Stamp;
      if !initialized {
        return Uninitialised;
      }
      if !memory {
        return Failed;
      }
      Enrol(delay, client, lag);
      status := Registered;
    }

    method Enrol(delay: nat, client: nat, lag: nat)
      requires Valid() && initialized
      modifies this, nodes
      ensures Valid() && initialized && St() == Alarms.Registered(old(St()), client, delay, lag)
    {
      hide Insert, Countdown, Stamp, High, TicksToMicroseconds, Linked;
      var now := GetTimeStamp();
      var n := new AlarmTimer(registered, client, (now + delay) % WORD64);
      Elapse(lag);
      TimerQueueInsert(n);
      hide Contents;
      registered := registered + 1;
      log := log + [n.Content()];
      if head == n {
        SetTimer0(delay, lag);
      }
    }

    /** The first alarm leaves the list and its function is called. */
    method FireHead(now: nat)
      requires Valid() && head != null && now == Stamp(ticks)
      modifies this`head, this`nodes, this`fired, this`read, this`known
      ensures Valid() && |nodes| < |old(nodes)| && old(St()).queue != [] && St() == Popped(old(St()), ticks)
    {
      hide Stamp, High, TicksToMicroseconds, Linked;
      ghost var c := St();
      var alarm := TimerQueuePop();
      fired := fired + [Fired(alarm.Content(), now, |log|)];
      read, known := ticks, |log|;
      assert c.queue[0] == alarm.Content() && Contents(nodes) == c.queue[1..];
    }

    /** The countdown for the first alarm, read now and set `lag` ticks later. */
    method ArmHead(now: nat, lag: nat)
      requires Valid() && head != null && now == Stamp(ticks)
      modifies this`armed, this`ticks, this`high, this`read, this`known
      ensures Valid() && old(St()).queue != [] && St() == Armed(old(St()), old(ticks), lag)
    {
      hide Countdown, Stamp, High, TicksToMicroseconds, Linked;
      assert Contents(nodes)[0] == head.Content();
      read, known := ticks, |log|;
      var delay := (head.expiration - now) % WORD64;
      Elapse(lag);
      SetTimer0(delay, lag);
    }

    /** timer0_irq: fires what is due, arms the countdown for the first alarm that is not. */
    method Timer0Irq(lags: seq<nat>)
      requires Valid() && head != null && initialized
      modifies this
      ensures Valid() && initialized && St() == Serve(old(St()), lags)
    {
      hide Countdown, Stamp, Due, High, TicksToMicroseconds, Linked, Armed;
      ghost var start := St();
      var rest := lags;
      while head != null
        invariant Valid() && initialized && Serve(St(), rest) == Serve(start, lags)
        decreases |nodes|
      {
        ghost var c := St();
        assert c.queue[0] == head.Content() && c.queue != [];
        Elapse(Lag(rest));
        SameHead(c, ticks, Lag(Rest(rest)));
        var now := GetTimeStamp();
        if IsDue(head.expiration, now) {
          FireHead(now);
          rest := Rest(rest);
        } else {
          ArmHead(now, Lag(Rest(rest)));
          return;
        }
      }
    }
  }

  /** Firing and arming at tick `t` do not depend on the time before it. */
  lemma SameHead(c: Clock, t: nat, lag: nat)
    requires c.queue != []
    ensures Popped(c.(now := t), t) == Popped(c, t) && Armed(c.(now := t), t, lag) == Armed(c, t, lag)
  {
  }

  /** The test of the handler, on 64-bit words. */
  function IsDue(expiration: nat, now: nat): (due: bool)
    ensures due <==> Due(expiration, now)
  {
    var delay := (expiration - now) % WORD64;
    if delay >= HALF64 then true else delay <= EARLY
  }

  lemma InsertBegin(was: seq<AlarmTimer>, a: Alarm)
    ensures Insert(Contents(was), a) == Contents(was[..0]) + Insert(Contents(was[0..]), a)
  {
    assert was[0..] == was;
  }

  lemma InsertBehind(was: seq<AlarmTimer>, k: nat, a: Alarm)
    requires k < |was| && a.expiration >= was[k].expiration
    ensures Contents(was[..k]) + Insert(Contents(was[k..]), a) ==
      Contents(was[..k + 1]) + Insert(Contents(was[k + 1..]), a)
  {
    var x := Contents(was[k..]);
    assert x[0] == was[k].Content() && x[1..] == Contents(was[k + 1..]);
    assert Contents(was[..k + 1]) == Contents(was[..k]) + [x[0]];
    assert Insert(x, a) == [x[0]] + Insert(x[1..], a);
    hide Insert, Contents;
  }

  lemma InsertHere(was: seq<AlarmTimer>, k: nat, n: AlarmTimer)
    requires k <= |was| && (k < |was| ==> n.expiration < was[k].expiration)
    ensures Contents(was[..k] + [n] + was[k..]) == Contents(was[..k]) + Insert(Contents(was[k..]), n.Content())
  {
    var x := Contents(was[k..]);
    assert k < |was| ==> x[0] == was[k].Content();
    assert Insert(x, n.Content()) == [n.Content()] + x;
  }
}
