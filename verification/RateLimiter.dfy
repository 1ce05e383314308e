/** The sliding-window request limiter of rate-limiter.ts. */
module RateLimiter {
  const MAX_REQUESTS: nat := 10
  const WINDOW_MS: int := 60_000

  /** The entries of `ts` less than one window older than `now`. */
  function Recent(ts: seq<int>, now: int): (r: seq<int>)
    ensures |r| <= |ts|
  {
    if ts == [] then []
    else
      var front := Recent(ts[..|ts| - 1], now);
      if now - ts[|ts| - 1] < WINDOW_MS then front + [ts[|ts| - 1]] else front
  }

  class RateLimiter {
    var timestamps: seq<int>

    constructor ()
      ensures timestamps == []
    {
      timestamps := [];
    }

    /** One request at time `now`; the answer is whether it is let through. */
    method Fetch(now: int) returns (accepted: bool)
      modifies this
      ensures Limiter(timestamps, accepted) == Request(old(timestamps), now)
    {
      var kept := [];
      var i := 0;
      while i < |timestamps|
        invariant 0 <= i <= |timestamps|
        invariant kept == Recent(timestamps[..i], now)
      {
        if now - timestamps[i] < WINDOW_MS {
          kept := kept + [timestamps[i]];
        }
        i := i + 1;
        assert timestamps[..i][..i - 1] == timestamps[..i - 1];
      }
      assert timestamps[..i] == timestamps;
      timestamps := kept;
      if |timestamps| >= MAX_REQUESTS {
        return false;
      }
      timestamps := timestamps + [now];
      return true;
    }
  }

  /** The field and the answer after a request. */
  datatype Limiter = Limiter(timestamps: seq<int>, accepted: bool)

  function Request(ts: seq<int>, now: int): Limiter {
    var kept := Recent(ts, now);
    if |kept| >= MAX_REQUESTS then Limiter(kept, false) else Limiter(kept + [now], true)
  }

  // ----- Runs -----

  /** The field after requests at the given times. */
  function FieldAfter(times: seq<int>): seq<int> {
    if times == [] then []
    else Request(FieldAfter(times[..|times| - 1]), times[|times| - 1]).timestamps
  }

  /** The times of all requests that were accepted. */
  function Accepted(times: seq<int>): (r: seq<int>)
    ensures |r| <= |times|
  {
    if times == [] then []
    else
      var front, now := times[..|times| - 1], times[|times| - 1];
      if Request(FieldAfter(front), now).accepted then Accepted(front) + [now] else Accepted(front)
  }

  /** One more request. */
  lemma OneMore(times: seq<int>, now: int)
    ensures FieldAfter(times + [now]) == Request(FieldAfter(times), now).timestamps
    ensures Accepted(times + [now]) ==
            if Request(FieldAfter(times), now).accepted then Accepted(times) + [now] else Accepted(times)
  {
    hide Request;
    assert (times + [now])[..|times|] == times;
  }

  ghost predicate Monotone(ts: seq<int>) {
    forall i, j :: 0 <= i <= j < |ts| ==> ts[i] <= ts[j]
  }

  lemma {:induction false} RecentAppend(ts: seq<int>, t: int, now: int)
    ensures Recent(ts + [t], now) == Recent(ts, now) + if now - t < WINDOW_MS then [t] else []
  {
    assert (ts + [t])[..|ts|] == ts;
  }

  /** Pruning twice at non-decreasing times is pruning once, at the later time. */
  lemma {:induction false} RecentRecent(ts: seq<int>, t0: int, t1: int)
    requires t0 <= t1
    ensures Recent(Recent(ts, t0), t1) == Recent(ts, t1)
  {
    if ts != [] {
      var front, last := ts[..|ts| - 1], ts[|ts| - 1];
      RecentRecent(front, t0, t1);
      RecentAppend(Recent(front, t0), last, t1);
    }
  }

  /** No reading is later than `now`. */
  ghost predicate NotAfter(times: seq<int>, now: int) {
    forall t :: t in times ==> t <= now
  }

  /**
    Pruning loses no relevant timestamp: for a reading that is not behind any before it, however
    the clock moved among those, the field is the recent part of the whole history.
   */
  lemma {:induction false} FieldIsRecentHistory(times: seq<int>, now: int)
    requires NotAfter(times, now)
    ensures Recent(FieldAfter(times), now) == Recent(Accepted(times), now)
  {
    hide Recent, Accepted, FieldAfter;
    if times == [] {
      StartEmpty();
    } else {
      var front, last := times[..|times| - 1], times[|times| - 1];
      assert times == front + [last] && last in times;
      assert forall t :: t in front ==> t in times;
      FieldIsRecentHistory(front, now);
      OneMore(front, last);
      RecentRecent(FieldAfter(front), last, now);
      RecentAppend(Recent(FieldAfter(front), last), last, now);
      RecentAppend(Accepted(front), last, now);
    }
  }

  lemma StartEmpty()
    ensures FieldAfter([]) == [] && Accepted([]) == []
  {
  }

  /** How many entries fall in the window that ends at `now`. */
  function CountRecent(ts: seq<int>, now: int): nat {
    if ts == [] then 0
    else CountRecent(ts[1..], now) + if now - ts[0] < WINDOW_MS then 1 else 0
  }

  lemma {:induction false} RecentCounts(ts: seq<int>, now: int)
    ensures |Recent(ts, now)| == CountRecent(ts, now)
  {
    if ts != [] {
      RecentCounts(ts[1..], now);
      RecentSplit(ts, now);
    }
  }

  lemma {:induction false} RecentSplit(ts: seq<int>, now: int)
    requires ts != []
    ensures Recent(ts, now) == (if now - ts[0] < WINDOW_MS then [ts[0]] else []) + Recent(ts[1..], now)
  {
    if |ts| == 1 {
      assert ts[..0] == [] && ts[1..] == [];
    } else {
      var front := ts[..|ts| - 1];
      RecentSplit(front, now);
      assert front[1..] == ts[1..][..|ts[1..]| - 1];
    }
  }

  /**
    Exactness: a request whose reading is not behind any before it is refused exactly when the
    requests accepted in the window before it number `MAX_REQUESTS`, and they are never more.
   */
  lemma {:induction false} RefusedExactly(times: seq<int>, now: int)
    requires NotAfter(times, now)
    ensures !Request(FieldAfter(times), now).accepted <==> CountRecent(Accepted(times), now) == 10
    ensures CountRecent(Accepted(times), now) <= 10
  {
    hide Recent, Accepted, FieldAfter, CountRecent;
    FieldIsRecentHistory(times, now);
    RecentCounts(Accepted(times), now);
    FieldBounded(times);
  }

  lemma {:induction false} FieldBounded(times: seq<int>)
    ensures |FieldAfter(times)| <= MAX_REQUESTS
  {
    if times != [] {
      FieldBounded(times[..|times| - 1]);
    }
  }

  // ----- Safety -----

  /** Nothing in `a` is a window or more later than something before it. */
  ghost predicate WithinWindow(a: seq<int>) {
    forall k, m :: 0 <= k < m < |a| ==> a[m] - a[k] < WINDOW_MS
  }

  lemma {:induction false} RecentLength(ts: seq<int>, now: int)
    ensures |Recent(ts, now)| == |ts| ==> Recent(ts, now) == ts
  {
    if ts != [] {
      RecentLength(ts[..|ts| - 1], now);
    }
  }

  /** Pruning keeps a tail of recent entries where it is. */
  lemma {:induction false} RecentTail(front: seq<int>, tail: seq<int>, now: int)
    requires forall i :: 0 <= i < |tail| ==> now - tail[i] < WINDOW_MS
    ensures Recent(front + tail, now) == Recent(front, now) + tail
  {
    if tail == [] {
      assert front + tail == front;
    } else {
      var t := tail[|tail| - 1];
      RecentTail(front, tail[..|tail| - 1], now);
      RecentAppend(front + tail[..|tail| - 1], t, now);
      assert front + tail == (front + tail[..|tail| - 1]) + [t];
    }
  }

  ghost predicate EndsWith(s: seq<int>, tail: seq<int>) {
    exists front :: s == front + tail
  }

  /** The last accepted requests are in the field as long as they lie within one window. */
  lemma {:induction false} FieldEndsWithAccepted(times: seq<int>, n: nat)
    requires n <= |Accepted(times)| && WithinWindow(Accepted(times)[n..])
    ensures EndsWith(FieldAfter(times), Accepted(times)[n..])
  {
    hide Recent, Accepted, FieldAfter, EndsWith;
    var all, field := Accepted(times), FieldAfter(times);
    if n == |all| {
      EndsWithNothing(field, all[n..]);
    } else if times == [] {
      StartEmpty();
      assert false;
    } else {
      var front, now := times[..|times| - 1], times[|times| - 1];
      assert times == front + [now];
      OneMore(front, now);
      if Request(FieldAfter(front), now).accepted {
        var tail := Accepted(front)[n..];
        assert all[n..] == tail + [now];
        TailRecent(tail, now);
        FieldEndsWithAccepted(front, n);
        RecentKeepsTail(FieldAfter(front), tail, now);
        EndsWithOneMore(Recent(FieldAfter(front), now), tail, now);
      } else {
        FieldBounded(front);
        RecentLength(FieldAfter(front), now);
        FieldEndsWithAccepted(front, n);
      }
    }
  }

  lemma EndsWithNothing(s: seq<int>, tail: seq<int>)
    requires tail == []
    ensures EndsWith(s, tail)
  {
    assert s == s + tail;
  }

  lemma EndsWithLength(s: seq<int>, tail: seq<int>)
    requires EndsWith(s, tail)
    ensures |tail| <= |s|
  {
  }

  lemma EndsWithOneMore(s: seq<int>, tail: seq<int>, t: int)
    requires EndsWith(s, tail)
    ensures EndsWith(s + [t], tail + [t])
  {
    var front :| s == front + tail;
    assert s + [t] == front + (tail + [t]);
  }

  lemma RecentKeepsTail(s: seq<int>, tail: seq<int>, now: int)
    requires EndsWith(s, tail) && forall i :: 0 <= i < |tail| ==> now - tail[i] < WINDOW_MS
    ensures EndsWith(Recent(s, now), tail)
  {
    var front :| s == front + tail;
    RecentTail(front, tail, now);
  }

  lemma TailRecent(tail: seq<int>, now: int)
    requires WithinWindow(tail + [now])
    ensures WithinWindow(tail) && forall i :: 0 <= i < |tail| ==> now - tail[i] < WINDOW_MS
  {
    var all := tail + [now];
    forall k, m | 0 <= k < m < |tail| ensures tail[m] - tail[k] < WINDOW_MS {
      assert all[m] - all[k] < WINDOW_MS;
    }
    forall i | 0 <= i < |tail| ensures now - tail[i] < WINDOW_MS {
      assert all[|tail|] - all[i] < WINDOW_MS;
    }
  }

  lemma {:induction false} ElevenNotWithin(times: seq<int>, i: nat)
    requires i + MAX_REQUESTS < |Accepted(times)|
    ensures !WithinWindow(Accepted(times)[i..i + MAX_REQUESTS + 1])
  {
    hide Recent, Accepted, FieldAfter, EndsWith, WithinWindow;
    if times == [] {
      StartEmpty();
      assert false;
    } else {
      LastOfEleven(times, i);
      if i + MAX_REQUESTS < |Accepted(times[..|times| - 1])| {
        ElevenNotWithin(times[..|times| - 1], i);
      }
    }
  }

  lemma {:induction false} LastOfEleven(times: seq<int>, i: nat)
    requires times != [] && i + MAX_REQUESTS < |Accepted(times)|
    ensures i + MAX_REQUESTS < |Accepted(times[..|times| - 1])|
         || !WithinWindow(Accepted(times)[i..i + MAX_REQUESTS + 1])
    ensures var before := Accepted(times[..|times| - 1]);
            i + MAX_REQUESTS < |before| ==> before[i..i + MAX_REQUESTS + 1] == Accepted(times)[i..i + MAX_REQUESTS + 1]
  {
    hide Recent, Accepted, FieldAfter, EndsWith, WithinWindow;
    var front, now := times[..|times| - 1], times[|times| - 1];
    assert times == front + [now];
    OneMore(front, now);
    var all, before := Accepted(times), Accepted(front);
    if i + MAX_REQUESTS < |before| {
      assert all[i..i + MAX_REQUESTS + 1] == before[i..i + MAX_REQUESTS + 1];
    } else if WithinWindow(all[i..i + MAX_REQUESTS + 1]) {
      var tail := before[i..];
      assert all[i..i + MAX_REQUESTS + 1] == tail + [now];
      TailRecent(tail, now);
      FieldEndsWithAccepted(front, i);
      RecentKeepsTail(FieldAfter(front), tail, now);
      EndsWithLength(Recent(FieldAfter(front), now), tail);
      assert false;
    }
  }

  /**
    Safety, whatever the clock does: of any 11 accepted requests some one comes at least a
    window after an earlier one.
   */
  lemma {:induction false} ElevenHoldAWindow(times: seq<int>, i: nat)
    requires i + 10 < |Accepted(times)|
    ensures exists k, m :: i <= k < m <= i + 10 && Accepted(times)[m] - Accepted(times)[k] >= 60_000
  {
    hide Accepted;
    var all := Accepted(times);
    var span := all[i..i + MAX_REQUESTS + 1];
    ElevenNotWithin(times, i);
    var k, m :| 0 <= k < m < |span| && span[m] - span[k] >= WINDOW_MS;
    assert all[i + m] - all[i + k] >= WINDOW_MS;
  }

  /** The clock never reads more than `d` less than it did before. */
  ghost predicate Drifts(ts: seq<int>, d: nat) {
    forall i, j :: 0 <= i <= j < |ts| ==> ts[i] - d <= ts[j]
  }

  lemma {:induction false} AcceptedDrifts(times: seq<int>, d: nat)
    requires Drifts(times, d)
    ensures Drifts(Accepted(times), d)
    ensures forall t :: t in Accepted(times) ==> t in times
  {
    hide Request;
    if times != [] {
      var front, now := times[..|times| - 1], times[|times| - 1];
      assert Drifts(front, d);
      AcceptedDrifts(front, d);
      forall t | t in front ensures t - d <= now {
        var i :| 0 <= i < |front| && front[i] == t;
        assert times[i] - d <= times[|times| - 1];
      }
      DriftsOneMore(Accepted(front), now, d);
    }
  }

  lemma DriftsOneMore(ts: seq<int>, t: int, d: nat)
    requires Drifts(ts, d) && forall x :: x in ts ==> x - d <= t
    ensures Drifts(ts + [t], d)
  {
    var all := ts + [t];
    forall i, j | 0 <= i <= j < |all| ensures all[i] - d <= all[j] {
      if i < |ts| {
        assert all[i] in ts;
      }
    }
  }

  /** On a clock that steps back by at most `d` the first and last of them span a window less `2 * d`. */
  lemma {:induction false} ElevenSpan(times: seq<int>, i: nat, d: nat)
    requires Drifts(times, d) && i + 10 < |Accepted(times)|
    ensures Accepted(times)[i + 10] - Accepted(times)[i] >= 60_000 - 2 * d
  {
    hide Accepted;
    var all := Accepted(times);
    AcceptedDrifts(times, d);
    ElevenHoldAWindow(times, i);
    var k, m :| i <= k < m <= i + MAX_REQUESTS && all[m] - all[k] >= WINDOW_MS;
    assert all[i] - d <= all[k] && all[m] - d <= all[i + MAX_REQUESTS];
  }

  /** So on a non-decreasing clock any 11 accepted requests span at least one window. */
  lemma {:induction false} ElevenSpanAWindow(times: seq<int>, i: nat)
    requires Monotone(times) && i + 10 < |Accepted(times)|
    ensures Accepted(times)[i + 10] - Accepted(times)[i] >= 60_000
  {
    ElevenSpan(times, i, 0);
  }

  // ----- Both drifts are lost -----

  /** The bound is reached: the oldest request is let in early, the last late, by `d` each. */
  function Drifting(d: nat): seq<int> {
    [d, 0, WINDOW_MS] + seq(8, _ => WINDOW_MS - d)
  }

  lemma {:induction false} DriftingAccepted(d: nat, n: nat)
    requires 0 < d <= WINDOW_MS && n <= 8
    ensures var late := seq(n, _ => WINDOW_MS - d);
            && Accepted([d, 0, WINDOW_MS] + late) == [d, 0, WINDOW_MS] + late
            && FieldAfter([d, 0, WINDOW_MS] + late) == [d, WINDOW_MS] + late
  {
    hide Recent, Accepted, FieldAfter;
    var start: seq<int>, late := [d, 0, WINDOW_MS], seq(n, _ => WINDOW_MS - d);
    FieldOfThree(d);
    if n == 0 {
      assert start + late == start && [d, WINDOW_MS] + late == [d, WINDOW_MS];
    } else {
      var fewer, now := seq(n - 1, _ => WINDOW_MS - d), WINDOW_MS - d;
      DriftingAccepted(d, n - 1);
      assert late == fewer + [now] && start + late == (start + fewer) + [now];
      OneMore(start + fewer, now);
      AllRecent([d, WINDOW_MS] + fewer, now);
    }
  }

  lemma AllRecent(ts: seq<int>, now: int)
    requires forall i :: 0 <= i < |ts| ==> now - ts[i] < WINDOW_MS
    ensures Recent(ts, now) == ts
  {
    hide Recent;
    RecentNone(now);
    RecentTail([], ts, now);
    assert [] + ts == ts;
  }

  lemma FieldOfThree(d: nat)
    requires 0 < d <= WINDOW_MS
    ensures FieldAfter([d, 0, WINDOW_MS]) == [d, WINDOW_MS] && Accepted([d, 0, WINDOW_MS]) == [d, 0, WINDOW_MS]
  {
    hide Recent, Accepted, FieldAfter;
    var a, b: seq<int> := [d], [d, 0];
    StartEmpty();
    RecentNone(d);
    assert [] + [d] == a && a + [0] == b && b + [WINDOW_MS] == [d, 0, WINDOW_MS];
    OneMore([], d);
    RecentOne(d, 0);
    OneMore(a, 0);
    RecentOne(d, WINDOW_MS);
    RecentAppend(a, 0, WINDOW_MS);
    OneMore(b, WINDOW_MS);
  }

  lemma RecentNone(now: int)
    ensures Recent([], now) == []
  {
  }

  /** So no more than that can be said of the first and the last. */
  lemma SpanBoundReached(d: nat)
    requires 0 < d <= WINDOW_MS
    ensures var ts := Drifting(d);
            && Drifts(ts, d) && Accepted(ts) == ts && |ts| == 11
            && ts[10] - ts[0] == 60_000 - 2 * d
  {
    DriftingAccepted(d, 8);
  }

  lemma RecentOne(t: int, now: int)
    ensures Recent([t], now) == if now - t < WINDOW_MS then [t] else []
  {
    assert [t][..0] == [];
  }

  // ----- A clock that stepped back -----

  /** Is a request refused exactly when as many as are allowed were accepted in the window before it? */
  ghost predicate RefusesRightly(times: seq<int>, now: int) {
    !Request(FieldAfter(times), now).accepted <==> CountRecent(Accepted(times), now) >= MAX_REQUESTS
  }

  ghost predicate LatestIs(times: seq<int>, m: int) {
    m in times && NotAfter(times, m)
  }

  /**
    The exact condition on the clock: after all histories whose latest reading is `m` the answer
    is right if and only if the reading at hand is not behind it.
   */
  lemma {:induction false} RefusalExactIffNotBehind(m: int, now: int)
    ensures (forall times :: LatestIs(times, m) ==> RefusesRightly(times, now)) <==> m <= now
  {
    hide Recent, Accepted, FieldAfter, CountRecent, Request, LatestIs, RefusesRightly;
    if m <= now {
      forall times | LatestIs(times, m) ensures RefusesRightly(times, now) {
        NotBehindRight(times, m, now);
      }
    } else {
      BehindWrong(m, now);
    }
  }

  lemma NotBehindRight(times: seq<int>, m: int, now: int)
    requires LatestIs(times, m) && m <= now
    ensures RefusesRightly(times, now)
  {
    RefusedExactly(times, now);
  }

  /** Ten requests, all pruned by one a window later; the next reading, behind that one, finds room. */
  lemma {:induction false} BehindWrong(m: int, now: int)
    requires now < m
    ensures var times := seq(10, _ => m - WINDOW_MS) + [m];
            && LatestIs(times, m) && !RefusesRightly(times, now)
            && Accepted(times + [now]) == times + [now]
  {
    hide Recent, Accepted, FieldAfter, CountRecent;
    var early, times := seq(10, _ => m - WINDOW_MS), seq(10, _ => m - WINDOW_MS) + [m];
    TenAtOnce(m - WINDOW_MS, 10);
    NoneRecent(early, m);
    OneMore(early, m);
    RecentOne(m, now);
    AllCounted(times, now);
    OneMore(times, now);
    assert times[10] == m;
  }

  lemma {:induction false} AllCounted(ts: seq<int>, now: int)
    requires forall i :: 0 <= i < |ts| ==> now - ts[i] < WINDOW_MS
    ensures CountRecent(ts, now) == |ts|
  {
    hide Recent;
    AllRecent(ts, now);
    RecentCounts(ts, now);
  }

  lemma {:induction false} TenAtOnce(t: int, n: nat)
    requires n <= MAX_REQUESTS
    ensures var times := seq(n, _ => t); FieldAfter(times) == times && Accepted(times) == times
  {
    hide Recent, Accepted, FieldAfter;
    if n == 0 {
      StartEmpty();
      assert seq(n, _ => t) == [];
    } else {
      var front := seq(n - 1, _ => t);
      TenAtOnce(t, n - 1);
      assert seq(n, _ => t) == front + [t];
      OneMore(front, t);
      AllRecent(front, t);
    }
  }

  lemma {:induction false} NoneRecent(ts: seq<int>, now: int)
    requires forall i :: 0 <= i < |ts| ==> now - ts[i] >= WINDOW_MS
    ensures Recent(ts, now) == []
  {
    if ts != [] {
      NoneRecent(ts[..|ts| - 1], now);
    }
  }

  /** For one: ten requests at 0, one a window later, and a clock that then reads 0 again. */
  lemma ClockMustNotStepBack()
    ensures var times := seq(10, _ => 0) + [WINDOW_MS];
            && Accepted(times) == times && CountRecent(Accepted(times), 0) > MAX_REQUESTS
            && Request(FieldAfter(times), 0).accepted && Accepted(times + [0]) == times + [0]
  {
    hide Recent, Accepted, FieldAfter, CountRecent;
    var times := seq(10, _ => 0) + [WINDOW_MS];
    BehindWrong(WINDOW_MS, 0);
    TenAtOnce(0, 10);
    NoneRecent(seq(10, _ => 0), WINDOW_MS);
    OneMore(seq(10, _ => 0), WINDOW_MS);
    AllCounted(times, 0);
  }
}
