/**
 The alarm list over whole runs of registrations and timer interrupts: order,
 punctuality of the armed countdown, and what fires when.
 */
module Alarms {
  import opened Seqs
  import opened ClockTime

  const WORD64: nat := 0x1_0000_0000_0000_0000
  const HALF64: nat := 0x8000_0000_0000_0000
  /** An alarm due within this many microseconds is fired at once. */
  const EARLY: nat := 500

  /** A registered alarm; `id` counts registrations. */
  datatype Alarm = Alarm(id: nat, owner: nat, expiration: nat)

  /** timer_queue_insert: behind every alarm that expires no later. */
  function Insert(q: seq<Alarm>, a: Alarm): seq<Alarm> {
    if q == [] || a.expiration < q[0].expiration then [a] + q else [q[0]] + Insert(q[1..], a)
  }

  /** Expiry order, and order of registration among alarms that expire together. */
  predicate Before(a: Alarm, b: Alarm) {
    a.expiration < b.expiration || (a.expiration == b.expiration && a.id < b.id)
  }

  ghost predicate Sorted(q: seq<Alarm>) {
    forall i, j :: 0 <= i < j < |q| ==> Before(q[i], q[j])
  }

  lemma {:induction false} InsertMembers(q: seq<Alarm>, a: Alarm)
    ensures forall b :: b in Insert(q, a) <==> b == a || b in q
    ensures Insert(q, a) != [] && (Insert(q, a)[0] == a || (q != [] && Insert(q, a)[0] == q[0]))
    ensures |Insert(q, a)| == |q| + 1
  {
    if !(q == [] || a.expiration < q[0].expiration) {
      InsertMembers(q[1..], a);
      assert q == [q[0]] + q[1..];
    }
  }

  /** A newer alarm is put where it belongs, behind older ones that expire at the same time. */
  lemma {:induction false} InsertSorted(q: seq<Alarm>, a: Alarm)
    requires Sorted(q) && forall b :: b in q ==> b.id < a.id
    ensures Sorted(Insert(q, a))
  {
    if !(q == [] || a.expiration < q[0].expiration) {
      InsertSorted(q[1..], a);
      InsertMembers(q[1..], a);
      var r := Insert(q[1..], a);
      assert forall j :: 0 <= j < |r| ==> r[j] in r && Before(q[0], r[j]);
    }
  }

  // --------------------------------------------------------------- the countdown

  /** What TIMER0_SET stores in the 32-bit reload register, apart from its two control bits. */
  function Countdown(delay: nat): (c: nat)
    ensures c < EPOCH && c % 4 == 0
  {
    var ticks := delay * 3333 % WORD64 / 50 % EPOCH;
    ticks - ticks % 4
  }

  /** Truncation only ever shortens the countdown, so the interrupt comes no later than the expiry. */
  lemma CountdownPunctual(t: nat, delay: nat)
    ensures Countdown(delay) <= MicrosecondsToTicks(delay) && Countdown(delay) * 50 <= delay * 3333
    ensures Stamp(t + Countdown(delay)) <= Stamp(t) + delay
  {
    var product := delay * 3333;
    assert product % WORD64 <= product;
    var ticks := product % WORD64 / 50;
    assert ticks <= MicrosecondsToTicks(delay);
    assert ticks % EPOCH <= ticks by { Split(ticks); }
    StampAdvance(t, Countdown(delay), delay);
  }

  /** Up to the capacity of the register, about 64 seconds, the countdown is short by less than four ticks. */
  lemma CountdownClose(delay: nat)
    requires MicrosecondsToTicks(delay) < EPOCH
    ensures MicrosecondsToTicks(delay) < Countdown(delay) + 4 && delay * 3333 < (Countdown(delay) + 4) * 50
  {
    assert delay * 3333 < WORD64;
    assert delay * 3333 % WORD64 == delay * 3333;
  }

  /** Such a countdown ends at most a microsecond before the delay has passed by the time stamp. */
  lemma CountdownReaches(t: nat, lag: nat, delay: nat)
    requires MicrosecondsToTicks(delay) < EPOCH
    ensures Stamp(t) + delay <= Stamp(t + lag + Countdown(delay)) + 1
  {
    hide Countdown, Stamp;
    CountdownClose(delay);
    var c := Countdown(delay);
    Monotone(t + c, t + lag + c);
    AdvanceLoss(t, c, delay);
  }

  /** Ticks that fall short of `d` microseconds by less than four lose less than a microsecond more. */
  lemma AdvanceLoss(t: nat, c: nat, d: nat)
    requires c < EPOCH && MicrosecondsToTicks(d) < c + 4
    ensures Stamp(t) + d <= Stamp(t + c) + 1
  {
    hide Stamp;
    Loss(t);
    Loss(t + c);
    NextEpoch(t, c);
    assert d * 3333 <= c * 50 + 199;
  }

  lemma NextEpoch(t: nat, c: nat)
    requires c < EPOCH
    ensures (t + c) / EPOCH <= t / EPOCH + 1
  {
  }

  /** The signed test of the interrupt handler on the unsigned difference. */
  predicate Due(expiration: nat, now: nat) {
    var delay := (expiration - now) % WORD64;
    (if delay < HALF64 then delay else delay - WORD64) <= EARLY
  }

  /** The test never fires an alarm more than 500 us early exactly when it is less than 2^63 us away. */
  lemma DueExact(expiration: nat, now: nat)
    requires expiration < WORD64 && now < WORD64
    ensures (Due(expiration, now) ==> expiration <= now + EARLY) <==> expiration < now + HALF64
    ensures expiration < now + HALF64 && now < expiration + HALF64 ==>
      (Due(expiration, now) <==> expiration <= now + EARLY)
  {
    var d := expiration - now;
    if d >= 0 {
      assert d % WORD64 == d;
    } else {
      assert d % WORD64 == d + WORD64;
    }
  }

  // ----------------------------------------------------------------- the machine

  /** An alarm that fired, the time stamp then, and how many had been registered by then. */
  datatype Fired = Fired(alarm: Alarm, at: nat, known: nat)

  /** A running countdown: the tick at which it ends, how long after the reading it was set, and for which delay. */
  datatype Timer = Timer(end: nat, late: nat, delay: nat)

  /**
   Ticks passed, all registrations, pending alarms, the countdown, alarms fired, the tick of
   the handler's last reading and how many alarms were registered by then.
   */
  datatype Clock = Clock(now: nat, log: seq<Alarm>, queue: seq<Alarm>, armed: Option<Timer>, fired: seq<Fired>,
      read: nat, known: nat)

  /**
   A step begins `gap` ticks after the previous one. `lag` ticks pass between the reading of
   register_timer and its return; the handler's readings, and the setting of the timer that
   ends them, come `lags` ticks apart.
   */
  datatype Event = Register(gap: nat, owner: nat, delay: nat, lag: nat) | Interrupt(gap: nat, lags: seq<nat>)

  const Start := Clock(0, [], [], None, [], 0, 0)

  /** register_timer once the driver runs and memory was found. */
  function Registered(c: Clock, owner: nat, delay: nat, lag: nat): Clock {
    var a := Alarm(|c.log|, owner, (Stamp(c.now) + delay) % WORD64);
    var q, t := Insert(c.queue, a), c.now + lag;
    c.(now := t, log := c.log + [a], queue := q,
       armed := if q[0] == a then Some(Timer(t + Countdown(delay), lag, delay)) else c.armed)
  }

  function Lag(lags: seq<nat>): nat { if lags == [] then 0 else lags[0] }
  function Rest(lags: seq<nat>): seq<nat> { if lags == [] then [] else lags[1..] }

  function Popped(c: Clock, t: nat): Clock
    requires c.queue != []
  {
    c.(now := t, queue := c.queue[1..], fired := c.fired + [Fired(c.queue[0], Stamp(t), |c.log|)], read := t,
      known := |c.log|)
  }

  /** The countdown for the head, read at tick `t` and set `lag` ticks later. */
  function Armed(c: Clock, t: nat, lag: nat): Clock
    requires c.queue != []
  {
    var delay := (c.queue[0].expiration - Stamp(t)) % WORD64;
    c.(now := t + lag, armed := Some(Timer(t + lag + Countdown(delay), lag, delay)), read := t, known := |c.log|)
  }

  /** The loop of timer0_irq: alarms due are fired; the first that is not is armed. */
  function Serve(c: Clock, lags: seq<nat>): Clock
    decreases |c.queue|
  {
    if c.queue == [] then c
    else
      var t := c.now + Lag(lags);
      if Due(c.queue[0].expiration, Stamp(t)) then Serve(Popped(c, t), Rest(lags)) else Armed(c, t, Lag(Rest(lags)))
  }

  /** The countdown is one-shot: once it has ended it is no longer armed. */
  function Expire(c: Clock): Clock {
    if c.armed.Some? && c.armed.value.end <= c.now then c.(armed := None) else c
  }

  function Step(c: Clock, e: Event): Clock {
    var c1 := c.(now := c.now + e.gap);
    match e
    case Register(_, owner, delay, lag) => Registered(c1, owner, delay, lag)
    case Interrupt(_, lags) => Serve(Expire(c1), lags)
  }

  /** No expiry and no reading reaches 2^63 us. */
  predicate InRange(c: Clock, e: Event) {
    && Stamp(Step(c, e).now) < HALF64
    && (e.Register? ==> Stamp(c.now + e.gap) + e.delay < HALF64)
  }

  /** The handler is called while an alarm is pending, as it asserts. */
  predicate Sane(c: Clock, e: Event) {
    InRange(c, e) && (e.Interrupt? ==> c.queue != [])
  }

  /** The handler is called when the countdown has ended. */
  predicate Timely(c: Clock, e: Event) {
    InRange(c, e) && (e.Interrupt? ==> c.armed.Some? && c.armed.value.end <= c.now + e.gap)
  }

  function Run(c: Clock, es: seq<Event>): Clock
    decreases |es|
  {
    if es == [] then c else Run(Step(c, es[0]), es[1..])
  }

  ghost predicate SaneRun(c: Clock, es: seq<Event>)
    decreases |es|
  {
    es != [] ==> Sane(c, es[0]) && SaneRun(Step(c, es[0]), es[1..])
  }

  ghost predicate TimelyRun(c: Clock, es: seq<Event>)
    decreases |es|
  {
    es != [] ==> Timely(c, es[0]) && TimelyRun(Step(c, es[0]), es[1..])
  }

  // --------------------------------------------------------------- the invariant

  function AlarmsOf(fired: seq<Fired>): seq<Alarm> {
    seq(|fired|, i requires 0 <= i < |fired| => fired[i].alarm)
  }

  /** Every registered alarm is pending or has fired, once; nothing else is or has. */
  ghost predicate Once(c: Clock) {
    && (forall i :: 0 <= i < |c.log| ==> c.log[i].id == i && c.log[i].expiration < HALF64)
    && multiset(c.queue) + multiset(AlarmsOf(c.fired)) == multiset(c.log)
  }

  /** No alarm fires more than 500 us early. */
  ghost predicate NotEarly(c: Clock) {
    forall i :: 0 <= i < |c.fired| ==>
      c.fired[i].alarm.expiration <= c.fired[i].at + EARLY && c.fired[i].known <= |c.log|
  }

  /** An alarm that fired went before every alarm then registered that is pending or fired later. */
  ghost predicate InOrder(c: Clock) {
    && (forall i, b :: 0 <= i < |c.fired| && b in c.queue && b.id < c.fired[i].known ==> Before(c.fired[i].alarm, b))
    && (forall i, j :: 0 <= i < j < |c.fired| && c.fired[j].alarm.id < c.fired[i].known ==>
         Before(c.fired[i].alarm, c.fired[j].alarm))
  }

  /**
   While alarms are pending the countdown, had it been set at once, would end no later than the
   first of them expires.
   */
  ghost predicate Punctual(c: Clock) {
    c.queue != [] ==>
      c.armed.Some? && c.armed.value.late <= c.armed.value.end &&
        Stamp(c.armed.value.end - c.armed.value.late) <= c.queue[0].expiration
  }

  /** When its delay fits the register, the countdown ends at most a microsecond before the first alarm expires. */
  ghost predicate Reaches(c: Clock) {
    c.queue != [] ==>
      c.armed.Some? &&
      (MicrosecondsToTicks(c.armed.value.delay) < EPOCH ==> c.queue[0].expiration <= Stamp(c.armed.value.end) + 1)
  }

  /** Of the alarms the handler knew at its last reading, those due then are no longer pending. */
  ghost predicate Prompt(c: Clock) {
    && c.known <= |c.log| && c.read <= c.now
    && forall i :: 0 <= i < |c.queue| && c.queue[i].id < c.known ==> c.queue[i].expiration > Stamp(c.read) + EARLY
  }

  ghost predicate Kept(c: Clock) {
    Sorted(c.queue) && Once(c) && NotEarly(c) && InOrder(c)
  }

  lemma PendingIsLogged(c: Clock, a: Alarm)
    requires Once(c) && a in c.queue
    ensures a.id < |c.log| && c.log[a.id] == a && a.expiration < HALF64
  {
    assert a in multiset(c.queue);
    assert a in multiset(c.log);
    assert a in c.log;
  }

  lemma {:induction false} InsertMultiset(q: seq<Alarm>, a: Alarm)
    ensures multiset(Insert(q, a)) == multiset(q) + multiset{a}
  {
    if !(q == [] || a.expiration < q[0].expiration) {
      InsertMultiset(q[1..], a);
      assert q == [q[0]] + q[1..];
    }
  }

  lemma RegisterKeeps(c: Clock, owner: nat, delay: nat, lag: nat)
    requires Kept(c) && Punctual(c) && Stamp(c.now) + delay < HALF64
    ensures Kept(Registered(c, owner, delay, lag)) && Punctual(Registered(c, owner, delay, lag))
  {
    var r := Registered(c, owner, delay, lag);
    var a := Alarm(|c.log|, owner, Stamp(c.now) + delay);
    assert (Stamp(c.now) + delay) % WORD64 == Stamp(c.now) + delay;
    RegisterPunctual(c, a, owner, delay, lag);
    forall b | b in c.queue
      ensures b.id < a.id
    {
      PendingIsLogged(c, b);
    }
    hide Insert, Countdown, Stamp, Before, InOrder, Once, Sorted, Punctual;
    InsertSorted(c.queue, a);
    RegisterOnce(c, r, a);
    RegisterOrder(c, r, a);
  }

  lemma RegisterPunctual(c: Clock, a: Alarm, owner: nat, delay: nat, lag: nat)
    requires Punctual(c) && a == Alarm(|c.log|, owner, (Stamp(c.now) + delay) % WORD64) &&
      a.expiration == Stamp(c.now) + delay
    ensures Punctual(Registered(c, owner, delay, lag))
  {
    InsertMembers(c.queue, a);
    CountdownPunctual(c.now, delay);
    hide Insert, Countdown, Stamp;
  }

  /** A new head is armed for its own delay; otherwise head and countdown are the old ones. */
  lemma RegisterReaches(c: Clock, owner: nat, delay: nat, lag: nat)
    requires Reaches(c) && Stamp(c.now) + delay < HALF64
    ensures Reaches(Registered(c, owner, delay, lag))
  {
    var a := Alarm(|c.log|, owner, Stamp(c.now) + delay);
    assert (Stamp(c.now) + delay) % WORD64 == Stamp(c.now) + delay;
    InsertMembers(c.queue, a);
    if MicrosecondsToTicks(delay) < EPOCH {
      CountdownReaches(c.now, lag, delay);
    }
    hide Insert, Countdown, Stamp, MicrosecondsToTicks;
  }

  /** The new alarm is newer than all that fired, so the order of firing does not concern it. */
  lemma RegisterOrder(c: Clock, r: Clock, a: Alarm)
    requires InOrder(c) && NotEarly(c) && r.queue == Insert(c.queue, a) && r.fired == c.fired && a.id == |c.log|
    ensures InOrder(r)
  {
    InsertMembers(c.queue, a);
    hide Insert, Before;
  }

  /** A new alarm is none of those the handler knew. */
  lemma RegisterPrompt(c: Clock, owner: nat, delay: nat, lag: nat)
    requires Prompt(c)
    ensures Prompt(Registered(c, owner, delay, lag))
  {
    var r := Registered(c, owner, delay, lag);
    InsertMembers(c.queue, r.log[|c.log|]);
    hide Insert, Countdown, Stamp;
    forall i | 0 <= i < |r.queue| && r.queue[i].id < r.known
      ensures r.queue[i].expiration > Stamp(r.read) + EARLY
    {
      assert r.queue[i] in r.queue;
    }
  }

  lemma RegisterOnce(c: Clock, r: Clock, a: Alarm)
    requires Once(c) && a.id == |c.log| && a.expiration < HALF64
    requires r.log == c.log + [a] && r.queue == Insert(c.queue, a) && r.fired == c.fired
    ensures Once(r)
  {
    InsertMultiset(c.queue, a);
    hide Insert;
  }

  lemma PopOnce(c: Clock, t: nat)
    requires Once(c) && c.queue != []
    ensures Once(Popped(c, t))
  {
    hide Stamp;
    var r, a := Popped(c, t), c.queue[0];
    assert c.queue == [a] + r.queue;
    assert AlarmsOf(r.fired) == AlarmsOf(c.fired) + [a];
  }

  lemma PopKeeps(c: Clock, t: nat)
    requires Kept(c) && c.queue != [] && Due(c.queue[0].expiration, Stamp(t)) && Stamp(t) < HALF64
    ensures Kept(Popped(c, t))
  {
    var r, a := Popped(c, t), c.queue[0];
    PendingIsLogged(c, a);
    DueExact(a.expiration, Stamp(t));
    hide Stamp, Due;
    PopOnce(c, t);
    hide Once, InOrder;
  }

  /** One interrupt: the invariant is kept, what stays pending is armed in time, and all that was due has fired. */
  lemma {:induction false} ServeKeeps(c: Clock, lags: seq<nat>)
    requires Kept(c) && Stamp(Serve(c, lags).now) < HALF64
    ensures Kept(Serve(c, lags)) && Punctual(Serve(c, lags)) && c.now <= Serve(c, lags).now
    decreases |c.queue|
  {
    hide Kept, Due, Stamp, Countdown;
    if c.queue != [] {
      var t := c.now + Lag(lags);
      var a := c.queue[0];
      HeadExpires(c);
      if Due(a.expiration, Stamp(t)) {
        ServeLater(Popped(c, t), Rest(lags));
        Monotone(t, Serve(c, lags).now);
        PopKeeps(c, t);
        ServeKeeps(Popped(c, t), Rest(lags));
      } else {
        LaterKept(c, Serve(c, lags));
        Monotone(t, t + Lag(Rest(lags)));
        ArmInTime(a.expiration, t);
      }
    }
  }

  /**
   The handler does not stop before everything is fired that is due at its last reading, which
   comes no earlier than the interrupt.
   */
  lemma {:induction false} ServeFires(c: Clock, lags: seq<nat>)
    requires Kept(c) && c.queue != [] && Stamp(Serve(c, lags).now) < HALF64
    ensures var r := Serve(c, lags);
      r.log == c.log && r.known == |r.log| && c.now <= r.read && Prompt(r)
    decreases |c.queue|
  {
    hide Kept, Due, Stamp, Countdown;
    var t := c.now + Lag(lags);
    HeadExpires(c);
    ServeLater(c, lags);
    if Due(c.queue[0].expiration, Stamp(t)) {
      ServeLater(Popped(c, t), Rest(lags));
      Monotone(t, Serve(c, lags).now);
      PopKeeps(c, t);
      if c.queue[1..] != [] {
        ServeFires(Popped(c, t), Rest(lags));
      }
    } else {
      Monotone(t, t + Lag(Rest(lags)));
      NoneDue(c, Stamp(t));
    }
  }

  /** When the first alarm is not due, none is. */
  lemma NoneDue(c: Clock, now: nat)
    requires Kept(c) && c.queue != [] && now < HALF64 && !Due(c.queue[0].expiration, now)
    ensures forall i :: 0 <= i < |c.queue| ==> c.queue[i].expiration > now + EARLY
  {
    HeadExpires(c);
    DueExact(c.queue[0].expiration, now);
    assert forall i :: 0 < i < |c.queue| ==> Before(c.queue[0], c.queue[i]);
  }

  lemma HeadExpires(c: Clock)
    requires Kept(c) && c.queue != []
    ensures c.queue[0].expiration < HALF64
  {
    PendingIsLogged(c, c.queue[0]);
  }

  /** The countdown armed for an alarm that is not due ends no later than the alarm expires. */
  lemma ArmInTime(expiration: nat, t: nat)
    requires expiration < HALF64 && Stamp(t) < HALF64 && !Due(expiration, Stamp(t))
    ensures Stamp(t + Countdown((expiration - Stamp(t)) % WORD64)) <= expiration
  {
    hide Stamp, Countdown, Due;
    Remaining(expiration, Stamp(t));
    CountdownPunctual(t, (expiration - Stamp(t)) % WORD64);
  }

  /** The delay to an alarm that is not due fits the unsigned difference. */
  lemma Remaining(expiration: nat, now: nat)
    requires expiration < HALF64 && now < HALF64 && !Due(expiration, now)
    ensures now < expiration && (expiration - now) % WORD64 == expiration - now
  {
    DueExact(expiration, now);
  }

  lemma {:induction false} ServeLater(c: Clock, lags: seq<nat>)
    ensures c.now <= Serve(c, lags).now
    decreases |c.queue|
  {
    if c.queue != [] && Due(c.queue[0].expiration, Stamp(c.now + Lag(lags))) {
      ServeLater(Popped(c, c.now + Lag(lags)), Rest(lags));
    }
  }

  lemma StepKeeps(c: Clock, e: Event)
    requires Kept(c) && Punctual(c) && Prompt(c) && Sane(c, e)
    ensures Kept(Step(c, e)) && Punctual(Step(c, e)) && Prompt(Step(c, e))
  {
    hide Kept, Punctual, Prompt, Serve, Registered, Stamp;
    var c1 := c.(now := c.now + e.gap);
    LaterAll(c, c1);
    LaterAll(c, Expire(c1));
    match e
    case Register(_, owner, delay, lag) => RegisterKeeps(c1, owner, delay, lag); RegisterPrompt(c1, owner, delay, lag);
    case Interrupt(_, lags) => ServeKeeps(Expire(c1), lags); ServeFires(Expire(c1), lags);
  }

  /** Time alone changes nothing. */
  lemma LaterAll(c: Clock, d: Clock)
    requires Kept(c) && Prompt(c) && d == c.(now := d.now, armed := d.armed) && c.now <= d.now
    ensures Kept(d) && Prompt(d) && (Punctual(c) && d.armed == c.armed ==> Punctual(d))
  {
    LaterKept(c, d);
    hide Kept;
  }

  lemma LaterKept(c: Clock, d: Clock)
    requires Kept(c) && d.log == c.log && d.queue == c.queue && d.fired == c.fired
    ensures Kept(d)
  {
    hide Sorted, AlarmsOf, Before;
  }

  /**
   Over every run the list is sorted, alarms fire once, in order, not too early and when due, and
   the countdown is punctual.
   */
  lemma {:induction false} RunKeeps(c: Clock, es: seq<Event>)
    requires Kept(c) && Punctual(c) && Prompt(c) && SaneRun(c, es)
    ensures Kept(Run(c, es)) && Punctual(Run(c, es)) && Prompt(Run(c, es))
    decreases |es|
  {
    if es != [] {
      StepKeeps(c, es[0]);
      hide Kept, Punctual, Prompt, Step, Sane;
      RunKeeps(Step(c, es[0]), es[1..]);
    }
  }

  /**
   From the start: the invariant holds, and every alarm known at the handler's last reading
   and due then has fired, exactly once, and is no longer pending.
   */
  lemma Alarmed(es: seq<Event>)
    requires SaneRun(Start, es)
    ensures Kept(Run(Start, es)) && Punctual(Run(Start, es)) && Prompt(Run(Start, es))
    ensures var r := Run(Start, es);
      forall a :: a in r.log && a.id < r.known && a.expiration <= Stamp(r.read) + EARLY ==> FiredOnce(r, a)
  {
    StartKept();
    hide Kept, Punctual, Prompt, FiredOnce, Stamp, Run, SaneRun;
    RunKeeps(Start, es);
    var r := Run(Start, es);
    forall a | a in r.log && a.id < r.known && a.expiration <= Stamp(r.read) + EARLY
      ensures FiredOnce(r, a)
    {
      PromptFired(r, a);
    }
  }

  lemma StartKept()
    ensures Kept(Start) && Punctual(Start) && Prompt(Start) && Reaches(Start)
  {
  }

  /** An interrupt leaves no alarm unfired that is due when it arrives. */
  lemma InterruptFires(es: seq<Event>, e: Event, a: Alarm)
    requires SaneRun(Start, es) && e.Interrupt? && Sane(Run(Start, es), e) && a in Run(Start, es).log
    requires a.expiration <= Stamp(Run(Start, es).now + e.gap) + EARLY
    ensures FiredOnce(Step(Run(Start, es), e), a)
  {
    hide Kept, Prompt, Punctual, Stamp, Serve, FiredOnce, SaneRun, Run;
    Alarmed(es);
    var c := Run(Start, es);
    var c1 := Expire(c.(now := c.now + e.gap));
    StepKeeps(c, e);
    LaterKept(c, c1);
    LoggedId(c, a);
    ServeFires(c1, e.lags);
    Monotone(c.now + e.gap, Step(c, e).read);
    PromptFired(Step(c, e), a);
  }

  lemma LoggedId(c: Clock, a: Alarm)
    requires Kept(c) && a in c.log
    ensures a.id < |c.log|
  {
  }

  lemma {:induction false} ServeReaches(c: Clock, lags: seq<nat>)
    requires Kept(c) && Stamp(Serve(c, lags).now) < HALF64
    ensures Reaches(Serve(c, lags))
    decreases |c.queue|
  {
    hide Kept, Due, Stamp, Countdown, MicrosecondsToTicks;
    if c.queue != [] {
      var t := c.now + Lag(lags);
      HeadExpires(c);
      if Due(c.queue[0].expiration, Stamp(t)) {
        ServeLater(Popped(c, t), Rest(lags));
        Monotone(t, Serve(c, lags).now);
        PopKeeps(c, t);
        ServeReaches(Popped(c, t), Rest(lags));
      } else {
        Monotone(t, t + Lag(Rest(lags)));
        ArmReaches(c, t, Lag(Rest(lags)));
      }
    }
  }

  lemma ArmReaches(c: Clock, t: nat, lag: nat)
    requires c.queue != [] && c.queue[0].expiration < HALF64 && Stamp(t) < HALF64 &&
      !Due(c.queue[0].expiration, Stamp(t))
    ensures Reaches(Armed(c, t, lag))
  {
    hide Stamp, Countdown, Due, MicrosecondsToTicks;
    var expiration := c.queue[0].expiration;
    Remaining(expiration, Stamp(t));
    if MicrosecondsToTicks(expiration - Stamp(t)) < EPOCH {
      CountdownReaches(t, lag, expiration - Stamp(t));
    }
  }

  /** Over every run a countdown whose delay fits the register does not end before its alarm is as good as due. */
  lemma {:induction false} RunReaches(c: Clock, es: seq<Event>)
    requires Kept(c) && Punctual(c) && Prompt(c) && Reaches(c) && SaneRun(c, es)
    ensures Reaches(Run(c, es))
    decreases |es|
  {
    if es != [] {
      hide Kept, Punctual, Prompt, Reaches, Step, Sane;
      StepKeeps(c, es[0]);
      StepReaches(c, es[0]);
      RunReaches(Step(c, es[0]), es[1..]);
    }
  }

  lemma StepReaches(c: Clock, e: Event)
    requires Kept(c) && Prompt(c) && Reaches(c) && Sane(c, e)
    ensures Reaches(Step(c, e))
  {
    var c1 := c.(now := c.now + e.gap);
    assert Reaches(c1);
    hide Kept, Prompt, Reaches, Serve, Registered, Stamp;
    LaterAll(c, Expire(c1));
    match e
    case Register(_, owner, delay, lag) => RegisterReaches(c1, owner, delay, lag);
    case Interrupt(_, lags) => ServeReaches(Expire(c1), lags);
  }

  /**
   The interrupt at the end of a countdown whose delay fits the register fires the first alarm.
   But for the delay in setting it, the countdown ends no later than that alarm expires.
   */
  lemma HeadFires(es: seq<Event>, e: Event)
    requires SaneRun(Start, es) && e.Interrupt? && Sane(Run(Start, es), e)
    requires var c := Run(Start, es);
      c.armed.Some? && c.armed.value.end <= c.now + e.gap && MicrosecondsToTicks(c.armed.value.delay) < EPOCH
    ensures var c := Run(Start, es);
      && c.queue != [] && FiredOnce(Step(c, e), c.queue[0])
      && c.armed.value.late <= c.armed.value.end
      && Stamp(c.armed.value.end - c.armed.value.late) <= c.queue[0].expiration <= Stamp(c.armed.value.end) + 1
  {
    StartKept();
    hide Kept, Prompt, Stamp, Serve, FiredOnce, SaneRun, Run, MicrosecondsToTicks;
    RunKeeps(Start, es);
    RunReaches(Start, es);
    var c := Run(Start, es);
    Monotone(c.armed.value.end, c.now + e.gap);
    PendingLogged(c, c.queue[0]);
    InterruptFires(es, e, c.queue[0]);
  }

  lemma PendingLogged(c: Clock, a: Alarm)
    requires Kept(c) && a in c.queue
    ensures a in c.log
  {
    PendingIsLogged(c, a);
  }

  /** The alarm has fired once and is not pending. */
  ghost predicate FiredOnce(c: Clock, a: Alarm) {
    multiset(AlarmsOf(c.fired))[a] == 1 && a !in c.queue
  }

  lemma PromptFired(c: Clock, a: Alarm)
    requires Kept(c) && Prompt(c) && a in c.log && a.id < c.known && a.expiration <= Stamp(c.read) + EARLY
    ensures FiredOnce(c, a)
  {
    FiresOnce(c, a);
    hide Stamp, AlarmsOf, Sorted, NotEarly, InOrder;
    assert a !in c.queue;
    assert multiset(c.queue)[a] == 0;
  }

  /** Each registered alarm is pending once and not fired, or fired once and not pending. */
  lemma FiresOnce(c: Clock, a: Alarm)
    requires Once(c) && a in c.log
    ensures multiset(c.queue)[a] + multiset(AlarmsOf(c.fired))[a] == 1
  {
    var x, y := c.log[..a.id], c.log[a.id + 1..];
    assert c.log == x + [a] + y;
    assert a !in x && a !in y;
    assert multiset(x)[a] == 0 && multiset(y)[a] == 0 && multiset([a])[a] == 1;
    assert multiset(c.log) == multiset(x) + multiset([a]) + multiset(y);
    assert (multiset(c.queue) + multiset(AlarmsOf(c.fired)))[a] == 1;
  }

  // ------------------------------------------------------ the handler's assertion

  lemma {:induction false} ServeArmed(c: Clock, lags: seq<nat>)
    ensures var r := Serve(c, lags); if r.queue == [] then r.armed == c.armed else r.armed.Some?
    decreases |c.queue|
  {
    if c.queue != [] && Due(c.queue[0].expiration, Stamp(c.now + Lag(lags))) {
      ServeArmed(Popped(c, c.now + Lag(lags)), Rest(lags));
    }
  }

  /** The countdown runs exactly while alarms are pending. */
  predicate Busy(c: Clock) {
    c.armed.Some? <==> c.queue != []
  }

  lemma TimelyStep(c: Clock, e: Event)
    requires Busy(c) && Timely(c, e)
    ensures Sane(c, e) && Busy(Step(c, e))
  {
    hide Stamp, Serve, Countdown;
    var c1 := Expire(c.(now := c.now + e.gap));
    match e
    case Register(_, owner, delay, lag) => InsertMembers(c.queue,
      Alarm(|c.log|, owner, (Stamp(c.now + e.gap) + delay) % WORD64));
    case Interrupt(_, lags) => ServeArmed(c1, lags);
  }

  /**
   If the handler is only ever called after the countdown has ended, the countdown runs exactly
   while alarms are pending, so at every call an alarm is pending, as the handler asserts.
   */
  lemma {:induction false} AssertionHolds(c: Clock, es: seq<Event>)
    requires Busy(c) && TimelyRun(c, es)
    ensures SaneRun(c, es) && Busy(Run(c, es))
    decreases |es|
  {
    if es != [] {
      TimelyStep(c, es[0]);
      hide Busy, Step, Sane, Timely;
      AssertionHolds(Step(c, es[0]), es[1..]);
    }
  }

  /** The tick of the handler's reading for alarm `i` of the list, if all before it were due. */
  function Reading(t: nat, lags: seq<nat>, i: nat): nat
    decreases i
  {
    if i == 0 then t + Lag(lags) else Reading(t + Lag(lags), Rest(lags), i - 1)
  }

  /** Every pending alarm is due at its reading. */
  ghost predicate AllDue(c: Clock, lags: seq<nat>) {
    forall i: nat :: i < |c.queue| ==> Due(c.queue[i].expiration, Stamp(Reading(c.now, lags, i)))
  }

  lemma {:induction false} ServeEmpties(c: Clock, lags: seq<nat>)
    ensures Serve(c, lags).queue == [] <==> AllDue(c, lags)
    decreases |c.queue|
  {
    hide Due, Stamp;
    if c.queue != [] {
      var t := c.now + Lag(lags);
      assert Reading(c.now, lags, 0) == t;
      if Due(c.queue[0].expiration, Stamp(t)) {
        var d := Popped(c, t);
        ServeEmpties(d, Rest(lags));
        assert forall i: nat :: i < |d.queue| ==>
          d.queue[i] == c.queue[i + 1] && Reading(d.now, Rest(lags), i) == Reading(c.now, lags, i + 1);
        if AllDue(d, Rest(lags)) {
          forall i: nat | i < |c.queue|
            ensures Due(c.queue[i].expiration, Stamp(Reading(c.now, lags, i)))
          {
            if i > 0 { assert c.queue[i] == d.queue[i - 1]; }
          }
        } else {
          var i: nat :| i < |d.queue| && !Due(d.queue[i].expiration, Stamp(Reading(d.now, Rest(lags), i)));
          assert !Due(c.queue[i + 1].expiration, Stamp(Reading(c.now, lags, i + 1)));
        }
      }
    }
  }

  /**
   A call leaves a countdown running with nothing pending, so that the next interrupt finds the
   list empty, exactly if it comes before the countdown has ended and every pending alarm is due
   at its reading.
   */
  lemma IdleExact(c: Clock, e: Event)
    requires e.Interrupt?
    ensures var r := Step(c, e); var t := c.now + e.gap;
      r.armed.Some? && r.queue == [] <==> c.armed.Some? && c.armed.value.end > t && AllDue(c.(now := t), e.lags)
  {
    hide Serve, Stamp, Due;
    var c1 := Expire(c.(now := c.now + e.gap));
    ServeArmed(c1, e.lags);
    ServeEmpties(c1, e.lags);
  }

  /** Two alarms: the second is registered before the countdown for the first ends and armed after it. */
  const Overtaken := [Register(0, 1, 100, 0), Register(4666, 1, 20, 2668)]

  /** The first countdown runs until tick 6664. */
  const First := Clock(0, [Alarm(0, 1, 100)], [Alarm(0, 1, 100)], Some(Timer(6664, 0, 100)), [], 0, 0)

  /** It has ended when the second is set, at tick 7334, to run until tick 8666. */
  const Second := Clock(7334, [Alarm(0, 1, 100), Alarm(1, 1, 89)], [Alarm(1, 1, 89), Alarm(0, 1, 100)],
    Some(Timer(8666, 2668, 20)), [], 0, 0)

  /** The interrupt that ends the first countdown fires both alarms. */
  const Emptied := Second.(queue := [], fired := [Fired(Alarm(1, 1, 89), 110, 2), Fired(Alarm(0, 1, 100), 110, 2)],
    read := 7334, known := 2)

  /**
   Such a call: a countdown ends between the reading of register_timer and the setting of the
   timer for the new alarm. Its interrupt empties the list, and the interrupt at the end of the
   second countdown finds nothing.
   */
  lemma IdleRun()
    ensures Run(Start, [Overtaken[0]]) == First && Run(Start, Overtaken) == Second
    ensures First.armed.value.end == 6664 <= Second.now
    ensures SaneRun(Start, Overtaken + [Interrupt(0, [])]) && Run(Start, Overtaken + [Interrupt(0, [])]) == Emptied
    ensures Timely(Emptied, Interrupt(1332, [])) && !Sane(Emptied, Interrupt(1332, []))
  {
    hide Stamp, Step, Run, SaneRun, Timely, Sane;
    assert Overtaken + [Interrupt(0, [])] == [Overtaken[0], Overtaken[1], Interrupt(0, [])];
    OneStep(Start, Overtaken[0]);
    TwoSteps(Start, Overtaken[0], Overtaken[1]);
    ThreeSteps(Start, Overtaken[0], Overtaken[1], Interrupt(0, []));
    FirstRegistered();
    SecondRegistered();
    BothFired();
    NoneLeft();
  }

  lemma OneStep(c: Clock, e: Event)
    ensures Run(c, [e]) == Step(c, e) && (SaneRun(c, [e]) <==> Sane(c, e))
  {
    hide Step, Sane;
    assert [e][1..] == [];
    assert Run(Step(c, e), []) == Step(c, e) && SaneRun(Step(c, e), []);
  }

  lemma TwoSteps(c: Clock, e: Event, f: Event)
    ensures Run(c, [e, f]) == Step(Step(c, e), f)
    ensures SaneRun(c, [e, f]) <==> Sane(c, e) && Sane(Step(c, e), f)
  {
    hide Step, Sane;
    assert [e, f][1..] == [f];
    OneStep(Step(c, e), f);
  }

  lemma ThreeSteps(c: Clock, e: Event, f: Event, g: Event)
    ensures Run(c, [e, f, g]) == Step(Step(Step(c, e), f), g)
    ensures SaneRun(c, [e, f, g]) <==> Sane(c, e) && Sane(Step(c, e), f) && Sane(Step(Step(c, e), f), g)
  {
    hide Step, Sane;
    assert [e, f, g][1..] == [f, g];
    TwoSteps(Step(c, e), f, g);
  }

  lemma SmallTimes()
    ensures Stamp(0) == 0 && Stamp(4666) == 69 && Stamp(7334) == 110 && Stamp(8666) == 130
    ensures Countdown(100) == 6664 && Countdown(20) == 1332
  {
  }

  lemma FirstRegistered()
    ensures Step(Start, Register(0, 1, 100, 0)) == First && Sane(Start, Register(0, 1, 100, 0))
  {
    hide Stamp, Countdown;
    SmallTimes();
    assert Insert([], Alarm(0, 1, 100)) == [Alarm(0, 1, 100)];
  }

  lemma SecondRegistered()
    ensures Step(First, Register(4666, 1, 20, 2668)) == Second && Sane(First, Register(4666, 1, 20, 2668))
  {
    hide Stamp, Countdown;
    SmallTimes();
    assert Insert(First.queue, Alarm(1, 1, 89)) == Second.queue;
  }

  lemma BothFired()
    ensures Step(Second, Interrupt(0, [])) == Emptied && Sane(Second, Interrupt(0, []))
  {
    assert Due(89, 110) && Due(100, 110);
    hide Stamp, Due;
    SmallTimes();
    var p := Popped(Second, 7334);
    var q := Popped(p, 7334);
    assert p.queue == [Alarm(0, 1, 100)] && q.queue == [];
    assert Serve(q, []) == q && Serve(p, []) == q && Serve(Second, []) == q;
  }

  lemma NoneLeft()
    ensures Timely(Emptied, Interrupt(1332, [])) && !Sane(Emptied, Interrupt(1332, []))
  {
    hide Stamp;
    SmallTimes();
  }
}
