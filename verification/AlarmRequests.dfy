/**
 What the clients of the clock get: each request has one alarm, with its own owner and
 its own time, which fires when it is due and not before.
 */
module AlarmRequests {
  import opened ClockTime
  import opened Alarms

  /** Whom to wake, the time stamp when the request was made, and after how many microseconds. */
  datatype Request = Request(owner: nat, reading: nat, delay: nat)

  function RequestOf(c: Clock, e: Event): seq<Request> {
    match e
    case Register(gap, owner, delay, _) => [Request(owner, Stamp(c.now + gap), delay)]
    case Interrupt(_, _) => []
  }

  /** The requests made in a run, in order. */
  function Requests(c: Clock, es: seq<Event>): seq<Request>
    decreases |es|
  {
    if es == [] then [] else RequestOf(c, es[0]) + Requests(Step(c, es[0]), es[1..])
  }

  /** Alarm number `i` is the one request `r` asked for. */
  predicate Answers(a: Alarm, i: nat, r: Request) {
    a.id == i && a.owner == r.owner && a.expiration == r.reading + r.delay
  }

  /** The log grows by exactly the alarms asked for, in order. */
  ghost predicate Grown(log: seq<Alarm>, log': seq<Alarm>, rs: seq<Request>) {
    && |log'| == |log| + |rs| && log'[..|log|] == log
    && forall i :: 0 <= i < |rs| ==> Answers(log'[|log| + i], |log| + i, rs[i])
  }

  /** The alarm entered in the log is the caller's, at the reading plus the delay, in 64-bit arithmetic. */
  lemma RegisteredLog(c: Clock, owner: nat, delay: nat, lag: nat)
    ensures Registered(c, owner, delay, lag).log == c.log + [Alarm(|c.log|, owner, (Stamp(c.now) + delay) % WORD64)]
    ensures Registered(c, owner, delay, lag).fired == c.fired && Registered(c, owner, delay, lag).now == c.now + lag
  {
    hide Stamp, Insert, Countdown;
  }

  /** A registration adds one alarm, for the caller, at its reading plus the delay asked for. */
  lemma RegisterLogs(c: Clock, e: Event)
    requires e.Register? && InRange(c, e)
    ensures Step(c, e).log == c.log + [Alarm(|c.log|, e.owner, Stamp(c.now + e.gap) + e.delay)]
    ensures Grown(c.log, Step(c, e).log, RequestOf(c, e))
  {
    hide Stamp, Insert, Countdown;
    assert (Stamp(c.now + e.gap) + e.delay) % WORD64 == Stamp(c.now + e.gap) + e.delay;
  }

  lemma {:induction false} ServeLogs(c: Clock, lags: seq<nat>)
    ensures Serve(c, lags).log == c.log
    decreases |c.queue|
  {
    hide Due, Stamp, Countdown;
    if c.queue != [] && Due(c.queue[0].expiration, Stamp(c.now + Lag(lags))) {
      ServeLogs(Popped(c, c.now + Lag(lags)), Rest(lags));
    }
  }

  lemma StepLogs(c: Clock, e: Event)
    requires InRange(c, e)
    ensures Grown(c.log, Step(c, e).log, RequestOf(c, e))
  {
    hide InRange, Serve, Registered;
    match e
    case Register(_, _, _, _) => RegisterLogs(c, e);
    case Interrupt(gap, lags) => ServeLogs(Expire(c.(now := c.now + gap)), lags);
  }

  lemma GrownTwice(a: seq<Alarm>, b: seq<Alarm>, c: seq<Alarm>, rs: seq<Request>, ss: seq<Request>)
    requires Grown(a, b, rs) && Grown(b, c, ss)
    ensures Grown(a, c, rs + ss)
  {
    hide Answers;
    assert c[..|a|] == c[..|b|][..|a|];
    forall i | 0 <= i < |rs + ss|
      ensures Answers(c[|a| + i], |a| + i, (rs + ss)[i])
    {
      if i < |rs| {
        assert c[|a| + i] == c[..|b|][|a| + i];
      } else {
        assert Answers(c[|b| + (i - |rs|)], |b| + (i - |rs|), ss[i - |rs|]);
      }
    }
  }

  /** Over a run the log grows by exactly the alarms asked for, each for its owner and its time. */
  lemma {:induction false} RunLogs(c: Clock, es: seq<Event>)
    requires SaneRun(c, es)
    ensures Grown(c.log, Run(c, es).log, Requests(c, es))
    decreases |es|
  {
    hide Step, RequestOf, InRange, Grown;
    if es != [] {
      StepLogs(c, es[0]);
      RunLogs(Step(c, es[0]), es[1..]);
      GrownTwice(c.log, Step(c, es[0]).log, Run(c, es).log, RequestOf(c, es[0]), Requests(Step(c, es[0]), es[1..]));
    } else {
      GrownNot(c.log);
    }
  }

  lemma GrownNot(log: seq<Alarm>)
    ensures Grown(log, log, [])
  {
  }

  // ------------------------------------------------------- when it fires

  /** Every alarm fired at a time the clock has shown, no later than at the handler's last reading. */
  ghost predicate FiredByNow(c: Clock) {
    && c.read <= c.now
    && forall i :: 0 <= i < |c.fired| ==> c.fired[i].at <= Stamp(c.read)
  }

  lemma {:induction false} ServeByNow(c: Clock, lags: seq<nat>)
    requires FiredByNow(c)
    ensures FiredByNow(Serve(c, lags))
    decreases |c.queue|
  {
    hide Due, Stamp, Countdown;
    if c.queue != [] {
      var t := c.now + Lag(lags);
      Monotone(c.read, t);
      if Due(c.queue[0].expiration, Stamp(t)) {
        ServeByNow(Popped(c, t), Rest(lags));
      } else {
        assert Serve(c, lags).read == t && Serve(c, lags).fired == c.fired;
      }
    }
  }

  lemma {:induction false} RunByNow(c: Clock, es: seq<Event>)
    requires FiredByNow(c)
    ensures FiredByNow(Run(c, es))
    decreases |es|
  {
    hide Stamp, Insert, Countdown, Serve;
    if es != [] {
      match es[0] {
        case Register(_, _, _, _) =>
        case Interrupt(gap, lags) => ServeByNow(Expire(c.(now := c.now + gap)), lags);
      }
      RunByNow(Step(c, es[0]), es[1..]);
    }
  }

  lemma FiredLogged(c: Clock, i: nat)
    requires Kept(c) && i < |c.fired|
    ensures c.fired[i].alarm.id < |c.log| && c.log[c.fired[i].alarm.id] == c.fired[i].alarm
    ensures c.fired[i].alarm.expiration <= c.fired[i].at + EARLY
  {
    hide Sorted, InOrder;
    assert AlarmsOf(c.fired)[i] == c.fired[i].alarm;
    assert c.fired[i].alarm in multiset(AlarmsOf(c.fired));
    assert c.fired[i].alarm in multiset(c.log);
    assert c.fired[i].alarm in c.log;
  }

  /**
   Whatever fires was asked for: it wakes the owner of its request, at most 500 us before the delay
   asked for has passed since the request, by a time stamp the clock has shown.
   */
  lemma FiresAsAsked(es: seq<Event>, i: nat)
    requires SaneRun(Start, es) && i < |Run(Start, es).fired|
    ensures var r, rs := Run(Start, es), Requests(Start, es); var f := r.fired[i];
      && f.alarm.id < |rs| && f.alarm.owner == rs[f.alarm.id].owner
      && rs[f.alarm.id].reading + rs[f.alarm.id].delay <= f.at + EARLY
      && f.at <= Stamp(r.read) <= Stamp(r.now)
  {
    hide Stamp, Kept, Punctual, Prompt, Run, SaneRun, Requests;
    StartKept();
    RunKeeps(Start, es);
    RunLogs(Start, es);
    RunByNow(Start, es);
    FiredLogged(Run(Start, es), i);
    Monotone(Run(Start, es).read, Run(Start, es).now);
  }

  /** Each request is pending or has fired, once, with its own owner and time. */
  lemma RequestOnce(es: seq<Event>, i: nat)
    requires SaneRun(Start, es) && i < |Requests(Start, es)|
    ensures var r, q := Run(Start, es), Requests(Start, es)[i]; var a := Alarm(i, q.owner, q.reading + q.delay);
      multiset(r.queue)[a] + multiset(AlarmsOf(r.fired))[a] == 1
  {
    hide Stamp, Kept, Punctual, Prompt, Run, SaneRun, Requests;
    StartKept();
    RunKeeps(Start, es);
    RunLogs(Start, es);
    var r, q := Run(Start, es), Requests(Start, es)[i];
    assert Answers(r.log[0 + i], 0 + i, q);
    assert r.log[i] == Alarm(i, q.owner, q.reading + q.delay);
    assert Kept(r);
    KeptOnce(r);
    FiresOnce(r, r.log[i]);
  }

  lemma KeptOnce(c: Clock)
    requires Kept(c)
    ensures Once(c)
  {
    hide Once, Sorted, NotEarly, InOrder;
  }

  /** After an interrupt every request whose delay had passed when it arrived has been served, once. */
  lemma RequestServed(es: seq<Event>, e: Event, i: nat)
    requires SaneRun(Start, es) && e.Interrupt? && Sane(Run(Start, es), e) && i < |Requests(Start, es)|
    requires var q := Requests(Start, es)[i]; q.reading + q.delay <= Stamp(Run(Start, es).now + e.gap) + EARLY
    ensures var q := Requests(Start, es)[i];
      FiredOnce(Step(Run(Start, es), e), Alarm(i, q.owner, q.reading + q.delay))
  {
    hide Stamp, Kept, Punctual, Prompt, Run, SaneRun, Requests, FiredOnce, Step, Sane;
    RunLogs(Start, es);
    var r, q := Run(Start, es), Requests(Start, es)[i];
    assert Answers(r.log[0 + i], 0 + i, q);
    assert r.log[i] == Alarm(i, q.owner, q.reading + q.delay);
    InterruptFires(es, e, r.log[i]);
  }
}
