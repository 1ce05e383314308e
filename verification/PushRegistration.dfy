/**
  The push registration of durable-object.ts: a stored record, one alarm, and a push on each
  alarm until the record outlives its time. Seconds and milliseconds are JavaScript numbers,
  here reals; whether the push service reports the device as gone is an input of the alarm.
 */
module PushRegistration {
  import opened Wrappers

  const DEFAULT_INTERVAL_SECONDS: real := 30.0
  const DEFAULT_TTL_SECONDS: real := 7200.0

  datatype Stored = Stored(intervalSeconds: real, ttlSeconds: real, pushCount: nat, createdAt: real)

  /** Durable storage: the record and the pending alarm. */
  datatype Storage = Storage(reg: Option<Stored>, alarm: Option<real>)

  const EMPTY := Storage(None, None)

  function GetOr(o: Option<real>, default: real): real {
    if o.Some? then o.value else default
  }

  /** `PUT /`, whose two clock readings are `created` and `armed`. */
  function Register(interval: Option<real>, ttl: Option<real>, created: real, armed: real): Storage {
    var i := GetOr(interval, DEFAULT_INTERVAL_SECONDS);
    Storage(Some(Stored(i, GetOr(ttl, DEFAULT_TTL_SECONDS), 0, created)), Some(armed + i * 1000.0))
  }

  function Expired(reg: Stored, now: real): bool {
    reg.createdAt + reg.ttlSeconds * 1000.0 < now
  }

  /** The storage after an alarm, and whether it sent a push. */
  datatype Alarmed = Alarmed(storage: Storage, sent: bool)

  /** `alarm()` at `now`; the alarm that fired is no longer pending. */
  function Alarm(s: Storage, now: real, gone: bool): Alarmed {
    match s.reg
    case None => Alarmed(s.(alarm := None), false)
    case Some(reg) =>
      if Expired(reg, now) then Alarmed(EMPTY, false)
      else if gone then Alarmed(EMPTY, true)
      else
        Alarmed(Storage(Some(reg.(pushCount := reg.pushCount + 1)), Some(now + reg.intervalSeconds * 1000.0)), true)
  }

  class PushRegistration {
    var reg: Option<Stored>
    var alarm: Option<real>

    ghost function State(): Storage
      reads this
    {
      Storage(reg, alarm)
    }

    constructor ()
      ensures State() == EMPTY
    {
      reg := None;
      alarm := None;
    }

    method Put(interval: Option<real>, ttl: Option<real>, created: real, armed: real)
      modifies this
      ensures State() == Register(interval, ttl, created, armed)
    {
      var record := Stored(GetOr(interval, DEFAULT_INTERVAL_SECONDS), GetOr(ttl, DEFAULT_TTL_SECONDS), 0, created);
      reg := Some(record);
      alarm := Some(armed + record.intervalSeconds * 1000.0);
    }

    /** `POST /deregister`: the record goes; an alarm already set may still fire. */
    method Deregister()
      modifies this
      ensures State() == old(State()).(reg := None)
    {
      reg := None;
    }

    method OnAlarm(now: real, gone: bool) returns (sent: bool)
      modifies this
      ensures Alarmed(State(), sent) == Alarm(old(State()), now, gone)
    {
      alarm := None;
      if reg.None? {
        return false;
      }
      var r := reg.value;
      if Expired(r, now) {
        Deregister();
        return false;
      }
      r := r.(pushCount := r.pushCount + 1);
      if gone {
        Deregister();
        return true;
      }
      reg := Some(r);
      alarm := Some(now + r.intervalSeconds * 1000.0);
      return true;
    }
  }

  // ----- Runs of one registration -----

  /** What can happen to a registration once made. */
  datatype Event = Fire(now: real, gone: bool) | Cancel

  function Step(s: Storage, e: Event): Alarmed {
    match e
    case Fire(now, gone) => Alarm(s, now, gone)
    case Cancel => Alarmed(s.(reg := None), false)
  }

  /** The platform fires an alarm only when one is pending, and never early. */
  ghost predicate Possible(s: Storage, e: Event) {
    e.Fire? ==> s.alarm.Some? && s.alarm.value <= e.now
  }

  /** A run from the reading `clock` on; the clock does not step back. */
  ghost predicate Run(s: Storage, clock: real, events: seq<Event>)
    decreases |events|
  {
    events == []
    || (&& Possible(s, events[0]) && clock <= Reading(clock, events[0])
        && Run(Step(s, events[0]).storage, Reading(clock, events[0]), events[1..]))
  }

  /** The clock when an event happens; only an alarm reads it. */
  function Reading(clock: real, e: Event): real {
    if e.Fire? then e.now else clock
  }

  function Sent(s: Storage, events: seq<Event>): nat
    decreases |events|
  {
    if events == [] then 0
    else
      var a := Step(s, events[0]);
      Sent(a.storage, events[1..]) + if a.sent then 1 else 0
  }

  /** When the next push of a record is due at the earliest. */
  function Due(reg: Stored): real {
    reg.createdAt + Intervals(reg.pushCount + 1, reg.intervalSeconds) * 1000.0
  }

  /** `n` intervals, by repeated addition. */
  function Intervals(n: nat, interval: real): real {
    if n == 0 then 0.0 else Intervals(n - 1, interval) + interval
  }

  lemma {:induction false} IntervalsIsProduct(n: nat, interval: real)
    ensures Intervals(n, interval) == n as real * interval
  {
    if n > 0 {
      IntervalsIsProduct(n - 1, interval);
      assert n as real == (n - 1) as real + 1.0;
      assert ((n - 1) as real + 1.0) * interval == (n - 1) as real * interval + interval;
    }
  }

  /** While a record is stored, its next alarm is at least `pushCount + 1` intervals after creation. */
  predicate Paced(s: Storage) {
    s.reg.Some? ==> s.alarm.Some? && Due(s.reg.value) <= s.alarm.value
  }

  /** The most pushes a stored record can still send. */
  ghost predicate Affordable(reg: Stored, more: nat) {
    Intervals(reg.pushCount + more, reg.intervalSeconds) <= reg.ttlSeconds
  }

  lemma PacedStep(s: Storage, e: Event)
    requires Paced(s) && Possible(s, e)
    ensures Paced(Step(s, e).storage)
    ensures Step(s, e).sent ==> Affordable(s.reg.value, 1)
  {
  }

  /** Nothing more is ever sent once the record is gone. */
  lemma {:induction false} SilentWhenGone(s: Storage, events: seq<Event>)
    requires s.reg.None?
    ensures Sent(s, events) == 0
    decreases |events|
  {
    if events != [] {
      SilentWhenGone(Step(s, events[0]).storage, events[1..]);
    }
  }

  lemma {:induction false} SentAffordable(s: Storage, clock: real, events: seq<Event>)
    requires Paced(s) && s.reg.Some? && Run(s, clock, events)
    ensures Sent(s, events) > 0 ==> Affordable(s.reg.value, Sent(s, events))
    decreases |events|
  {
    if events != [] {
      var e, a := events[0], Step(s, events[0]);
      PacedStep(s, e);
      if a.storage.reg.Some? {
        SentAffordable(a.storage, Reading(clock, e), events[1..]);
      } else {
        SilentWhenGone(a.storage, events[1..]);
      }
    }
  }

  /** `floor(ttl / interval)`, and nothing when the time to live is negative. */
  function Budget(interval: real, ttl: real): nat
    requires interval > 0.0
  {
    if ttl < 0.0 then 0
    else
      assert ttl / interval >= 0.0;
      (ttl / interval).Floor
  }

  lemma ProductSign(x: real, y: real)
    requires y > 0.0
    ensures x >= 0.0 ==> x * y >= 0.0
    ensures x > 0.0 ==> x * y > 0.0
  {
  }

  lemma Distribute(a: real, b: real, c: real)
    ensures (b - a) * c == b * c - a * c
  {
  }

  lemma ScaleOrder(a: real, b: real, c: real)
    requires c > 0.0
    ensures a <= b <==> a * c <= b * c
  {
    Distribute(a, b, c);
    Distribute(b, a, c);
    ProductSign(b - a, c);
    ProductSign(a - b, c);
    if a <= b {
      assert a * c <= b * c;
    } else {
      assert a * c > b * c;
    }
  }

  lemma FloorOrder(n: nat, q: real)
    ensures n <= q.Floor <==> n as real <= q
  {
  }

  lemma QuotientTimes(x: real, y: real)
    requires y != 0.0
    ensures x / y * y == x
  {
  }

  /** `n` intervals fit in `ttl` exactly when `n` is at most their quotient. */
  lemma QuotientOrder(interval: real, ttl: real, n: nat)
    requires interval > 0.0
    ensures n as real <= ttl / interval <==> Intervals(n, interval) <= ttl
  {
    var q := ttl / interval;
    QuotientTimes(ttl, interval);
    IntervalsIsProduct(n, interval);
    ScaleOrder(n as real, q, interval);
    assert n as real <= q <==> n as real * interval <= q * interval;
  }

  lemma BudgetBounds(interval: real, ttl: real, n: nat)
    requires interval > 0.0
    ensures n <= Budget(interval, ttl) <==> n == 0 || Intervals(n, interval) <= ttl
  {
    FloorOrder(n, ttl / interval);
    QuotientOrder(interval, ttl, n);
    if ttl < 0.0 && n > 0 {
      IntervalsIsProduct(n, interval);
      ProductSign(n as real, interval);
    }
  }

  lemma RegisterPaced(interval: Option<real>, ttl: Option<real>, created: real, armed: real)
    requires created <= armed
    ensures Paced(Register(interval, ttl, created, armed))
    ensures created == armed ==>
              Register(interval, ttl, created, armed) == OnTime(Register(interval, ttl, created, armed).reg.value)
  {
    var i := GetOr(interval, DEFAULT_INTERVAL_SECONDS);
    assert Intervals(1, i) == Intervals(0, i) + i == i;
  }

  // ----- Defaults, and the end of a registration -----

  /** Left out, the interval is 30 seconds and the time to live 7200; the first alarm is one interval away. */
  lemma Defaults(interval: Option<real>, ttl: Option<real>, created: real, armed: real, i: real, t: real)
    ensures Register(None, ttl, created, armed) == Register(Some(30.0), ttl, created, armed)
    ensures Register(interval, None, created, armed) == Register(interval, Some(7200.0), created, armed)
    ensures Register(Some(i), Some(t), created, armed)
         == Storage(Some(Stored(i, t, 0, created)), Some(armed + 1000.0 * i))
  {
  }

  function After(s: Storage, events: seq<Event>): Storage
    decreases |events|
  {
    if events == [] then s else After(Step(s, events[0]).storage, events[1..])
  }

  /** Nothing is sent after the push service reports the device gone, or after deregistration, ever again. */
  lemma NothingAfterTheEnd(s: Storage, last: Event, events: seq<Event>)
    requires last.Cancel? || last.gone
    ensures Sent(Step(s, last).storage, events) == 0 && After(Step(s, last).storage, events).reg.None?
  {
    SilentWhenGone(Step(s, last).storage, events);
    StaysGone(Step(s, last).storage, events);
  }

  lemma {:induction false} StaysGone(s: Storage, events: seq<Event>)
    requires s.reg.None?
    ensures After(s, events).reg.None?
    decreases |events|
  {
    if events != [] {
      StaysGone(Step(s, events[0]).storage, events[1..]);
    }
  }

  /**
    An alarm past the time to live ends the record and sends nothing; up to then it sends, and
    ends the record if the device is gone, or else sets the next alarm one interval on.
   */
  lemma AlarmEnds(s: Storage, now: real, gone: bool)
    requires s.reg.Some?
    ensures var r, a := s.reg.value, Alarm(s, now, gone);
            && (a.sent <==> now <= r.createdAt + r.ttlSeconds * 1000.0)
            && (a.storage.reg.Some? <==> a.sent && !gone)
            && a.storage.alarm == if a.storage.reg.Some? then Some(now + r.intervalSeconds * 1000.0) else None
  {
  }

  /** The stored count is that of the pushes sent, and the rest of the record stays. */
  lemma {:induction false} CountIsSent(s: Storage, events: seq<Event>)
    requires s.reg.Some? && After(s, events).reg.Some?
    ensures After(s, events).reg.value == s.reg.value.(pushCount := s.reg.value.pushCount + Sent(s, events))
    decreases |events|
  {
    if events != [] {
      var next := Step(s, events[0]).storage;
      if next.reg.None? {
        StaysGone(next, events[1..]);
        assert false;
      } else {
        CountIsSent(next, events[1..]);
      }
    }
  }

  // ----- The bound is reached -----

  /** `n` alarms in a row, each fired the moment it is due. */
  function Punctual(reg: Stored, n: nat): seq<Event>
    decreases n
  {
    if n == 0 then []
    else
      [Fire(Due(reg), false)]
      + Punctual(reg.(pushCount := reg.pushCount + 1), n - 1)
  }

  function OnTime(reg: Stored): Storage {
    Storage(Some(reg), Some(Due(reg)))
  }

  lemma {:induction false} PunctualSends(reg: Stored, clock: real, n: nat)
    requires reg.intervalSeconds > 0.0 && clock <= Due(reg)
    requires forall k: nat {:trigger Affordable(reg, k)} :: 0 < k <= n ==> Affordable(reg, k)
    ensures Run(OnTime(reg), clock, Punctual(reg, n)) && Sent(OnTime(reg), Punctual(reg, n)) == n
    decreases n
  {
    if n > 0 {
      var events := Punctual(reg, n);
      var next := reg.(pushCount := reg.pushCount + 1);
      assert Affordable(reg, 1);
      assert Step(OnTime(reg), events[0]) == Alarmed(OnTime(next), true);
      assert events[1..] == Punctual(next, n - 1);
      forall k: nat | 0 < k <= n - 1 ensures Affordable(next, k) {
        assert Affordable(reg, k + 1);
      }
      PunctualSends(next, Due(reg), n - 1);
    }
  }

  /** A run of a registration made at `created` that sends `n` pushes. */
  ghost predicate Sends(interval: real, ttl: real, created: real, armed: real, events: seq<Event>, n: nat) {
    var s := Register(Some(interval), Some(ttl), created, armed);
    created <= armed && Run(s, armed, events) && Sent(s, events) == n
  }

  ghost predicate CanSend(interval: real, ttl: real, created: real, n: nat) {
    exists armed: real, events :: Sends(interval, ttl, created, armed, events, n)
  }

  /**
    The push budget, exactly: with a positive interval a registration can send `n` pushes over
    some run if and only if `n` is at most `floor(ttlSeconds / intervalSeconds)`.
   */
  lemma PushBudget(interval: real, ttl: real, created: real, n: nat)
    requires interval > 0.0
    ensures CanSend(interval, ttl, created, n)
       <==> n <= Budget(interval, ttl)
  {
    forall armed: real, events | Sends(interval, ttl, created, armed, events, n) ensures n <= Budget(interval, ttl) {
      RegisterPaced(Some(interval), Some(ttl), created, armed);
      SentAffordable(Register(Some(interval), Some(ttl), created, armed), armed, events);
      BudgetBounds(interval, ttl, n);
    }
    if n <= Budget(interval, ttl) {
      var s := Register(Some(interval), Some(ttl), created, created);
      var reg := s.reg.value;
      RegisterPaced(Some(interval), Some(ttl), created, created);
      forall k: nat | 0 < k <= n ensures Affordable(reg, k) {
        BudgetBounds(interval, ttl, k);
      }
      PunctualSends(reg, created, n);
      assert Sends(interval, ttl, created, created, Punctual(reg, n), n);
    }
  }

  /** `n` alarms at once. */
  function AtOnce(now: real, n: nat): seq<Event> {
    if n == 0 then [] else [Fire(now, false)] + AtOnce(now, n - 1)
  }

  lemma {:induction false} AtOnceSends(s: Storage, now: real, n: nat)
    requires s.reg.Some? && s.reg.value.intervalSeconds <= 0.0 && !Expired(s.reg.value, now)
    requires s.alarm.Some? && s.alarm.value <= now
    ensures Run(s, now, AtOnce(now, n)) && Sent(s, AtOnce(now, n)) == n
    decreases n
  {
    if n > 0 {
      var events := AtOnce(now, n);
      assert events[1..] == AtOnce(now, n - 1);
      AtOnceSends(Step(s, events[0]).storage, now, n - 1);
    }
  }

  lemma {:induction false} ExpiredSilent(s: Storage, clock: real, events: seq<Event>)
    requires Run(s, clock, events) && (s.reg.Some? ==> Expired(s.reg.value, clock))
    ensures Sent(s, events) == 0
    decreases |events|
  {
    if events != [] {
      ExpiredSilent(Step(s, events[0]).storage, Reading(clock, events[0]), events[1..]);
    }
  }

  /**
    The interval must be positive: otherwise some run sends any number of pushes, at the moment
    of registration, unless the time to live is negative.
   */
  lemma NoBudgetWithoutInterval(interval: real, ttl: real, created: real, n: nat)
    requires interval <= 0.0
    ensures CanSend(interval, ttl, created, n)
       <==> n == 0 || 0.0 <= ttl
  {
    var s := Register(Some(interval), Some(ttl), created, created);
    if 0.0 <= ttl {
      AtOnceSends(s, created, n);
      assert Sends(interval, ttl, created, created, AtOnce(created, n), n);
    } else {
      assert Sends(interval, ttl, created, created, [], 0);
      forall armed: real, events | Sends(interval, ttl, created, armed, events, n) ensures n == 0 {
        ExpiredSilent(Register(Some(interval), Some(ttl), created, armed), armed, events);
      }
    }
  }
}
