/**
  The bridge's cache as a recency list. With strictly increasing clock readings the timestamped
  map with `evict_lru` does what a list does on which an updated thread moves to the front, a
  new one pushes the last off when there is no room, and a forgotten one is deleted.
 */
module Recency {
  import opened Wrappers
  import opened Json
  import opened Thread
  import opened ConversationState
  import opened Diff
  import opened Bridge
  import opened BridgeRuns

  /** Thread ids, the most recently updated first. */
  type Order = seq<string>

  ghost predicate NoRepeats(l: Order) {
    forall i, j :: 0 <= i < j < |l| ==> l[i] != l[j]
  }

  function Delete(l: Order, id: string): (r: Order)
    ensures forall k :: k in r <==> k in l && k != id
  {
    if l == [] then []
    else (if l[0] == id then [] else [l[0]]) + Delete(l[1..], id)
  }

  function MoveToFront(l: Order, id: string): Order {
    [id] + Delete(l, id)
  }

  function AtMost(l: Order, max: nat): Order {
    if |l| <= max then l else l[..max]
  }

  /** The list after an operation; `accepted` says whether it was taken up. */
  function ListStep(l: Order, max: nat, op: BridgeOp, accepted: bool): Order {
    match op
    case Process(StreamStateChanged(id, _), _) => if accepted then AtMost(MoveToFront(l, id), max) else l
    case Process(Archived(id), _) => Delete(l, id)
    case Process(_, _) => l
    case Seed(id, _, _) => if accepted then AtMost(MoveToFront(l, id), max) else l
    case Forget(id) => Delete(l, id)
    case Reset => []
    case CheckStale(_, _) => l
  }

  function TakenUp(c: Codec, op: BridgeOp, reply: Reply): bool {
    match op
    case Process(StreamStateChanged(_, _), _) => !Refused(reply.output)
    case Seed(id, raw, _) => ProjectState(c, id, raw).Ok?
    case _ => true
  }

  /** The list holds the cached threads, newest first. */
  ghost predicate Represents(l: Order, s: Threads) {
    && NoRepeats(l)
    && (forall id :: id in l <==> id in s)
    && (forall i, j :: 0 <= i < j < |l| ==> l[i] in s && l[j] in s && s[l[j]].lastUpdated < s[l[i]].lastUpdated)
  }

  /** An operation that writes a thread reads a clock that is later than every update so far. */
  ghost predicate Later(s: Threads, op: BridgeOp) {
    match op
    case Process(StreamStateChanged(_, _), now) => forall id :: id in s ==> s[id].lastUpdated < now
    case Seed(_, _, now) => forall id :: id in s ==> s[id].lastUpdated < now
    case _ => true
  }

  // ----- Lists and sizes -----

  lemma {:induction false} DistinctSize(l: Order, ids: set<string>)
    requires NoRepeats(l) && forall id :: id in l <==> id in ids
    ensures |ids| == |l|
  {
    if l == [] {
      assert ids == {};
    } else {
      var rest := ids - {l[0]};
      forall id ensures id in l[1..] <==> id in rest {
        assert id in l <==> id == l[0] || id in l[1..];
      }
      DistinctSize(l[1..], rest);
      assert ids == rest + {l[0]};
    }
  }

  lemma {:induction false} DeleteOrdered(l: Order, s: Threads, id: string)
    requires Represents(l, s)
    ensures Represents(Delete(l, id), s - {id})
  {
    hide Represents;
    DeleteKeepsOrder(l, s, id);
    RepresentsIntro(Delete(l, id), s - {id}, l, s);
  }

  lemma RepresentsIntro(r: Order, s': Threads, l: Order, s: Threads)
    requires Represents(l, s) && SortedIn(r, s) && (forall k :: k in r <==> k in s')
    requires forall k :: k in s' ==> k in s && s'[k] == s[k]
    ensures Represents(r, s')
  {
  }

  /** No repeats, all cached, newest first. */
  ghost predicate SortedIn(l: Order, s: Threads) {
    && (forall i :: 0 <= i < |l| ==> l[i] in s)
    && (forall i, j :: 0 <= i < j < |l| ==> l[i] != l[j] && s[l[j]].lastUpdated < s[l[i]].lastUpdated)
  }

  lemma RepresentedSorted(l: Order, s: Threads)
    requires Represents(l, s)
    ensures SortedIn(l, s)
  {
  }

  lemma {:induction false} DeleteSorted(l: Order, s: Threads, id: string)
    requires SortedIn(l, s)
    ensures SortedIn(Delete(l, id), s)
  {
    if l != [] {
      DeleteSorted(l[1..], s, id);
      var rest := Delete(l[1..], id);
      forall j | 0 <= j < |rest|
        ensures l[0] != rest[j] && s[rest[j]].lastUpdated < s[l[0]].lastUpdated
      {
        assert rest[j] in l[1..];
        var k :| 0 <= k < |l[1..]| && l[1..][k] == rest[j];
        assert l[k + 1] == rest[j];
      }
    }
  }

  lemma DeleteKeepsOrder(l: Order, s: Threads, id: string)
    requires Represents(l, s)
    ensures SortedIn(Delete(l, id), s) && forall k :: k in Delete(l, id) <==> k in s - {id}
  {
    RepresentedSorted(l, s);
    DeleteSorted(l, s, id);
  }

  /** Writing a thread at a later time than all others moves it to the front. */
  lemma {:induction false} UpdateMovesToFront(l: Order, s: Threads, id: string, cache: ThreadCache)
    requires Represents(l, s) && forall k :: k in s ==> s[k].lastUpdated < cache.lastUpdated
    ensures Represents(MoveToFront(l, id), s[id := cache])
  {
    hide Delete;
    DeleteOrdered(l, s, id);
    var rest := Delete(l, id);
    var r, s' := MoveToFront(l, id), s[id := cache];
    assert forall k :: k in rest ==> k in s && k != id && s'[k] == s[k];
    forall i, j | 0 <= i < j < |r|
      ensures r[i] != r[j] && r[i] in s' && r[j] in s' && s'[r[j]].lastUpdated < s'[r[i]].lastUpdated
    {
      assert r[j] == rest[j - 1];
      if i > 0 {
        assert r[i] == rest[i - 1];
      }
    }
  }

  /** Of the threads in a recency list eviction keeps exactly the first `max`. */
  lemma {:induction false} EvictionKeepsFirst(l: Order, before: Threads, max: nat, after: Threads)
    requires Represents(l, before) && Evicted(before, max, after)
    ensures Represents(AtMost(l, max), after) && |after| <= max
  {
    hide Represents;
    RepresentedSorted(l, before);
    DistinctSizeOf(l, before);
    if |before| <= max {
      SameThreads(before, after);
    } else {
      forall i | 0 <= i < |l| ensures l[i] in after <==> i < max {
        if l[i] in after {
          NewerAreKept(l, before, max, after, i);
        } else {
          KeptAreNewer(l, before, max, after, i);
        }
      }
      assert SortedIn(l[..max], before);
      forall k ensures k in l[..max] <==> k in after {
        if k in after {
          MemberOf(l, before, k);
          var i :| 0 <= i < |l| && l[i] == k;
          assert l[..max][i] == k;
        }
      }
      RepresentsIntro(l[..max], after, l, before);
    }
  }

  lemma MemberOf(l: Order, s: Threads, k: string)
    requires Represents(l, s) && k in s
    ensures k in l
  {
  }

  lemma DistinctSizeOf(l: Order, s: Threads)
    requires Represents(l, s)
    ensures |s| == |l|
  {
    DistinctSize(l, s.Keys);
  }

  lemma SameThreads(before: Threads, after: Threads)
    requires after.Keys <= before.Keys && |after| == |before|
    requires forall id :: id in after ==> after[id] == before[id]
    ensures after == before
  {
    var gone := before.Keys - after.Keys;
    assert before.Keys == after.Keys + gone;
    assert |before.Keys| == |after.Keys| + |gone|;
    assert gone == {};
  }

  /** A thread is not kept when a newer one is evicted. */
  lemma KeptDownward(l: Order, before: Threads, max: nat, after: Threads, i: nat, j: nat)
    requires Represents(l, before) && Evicted(before, max, after) && i < j < |l|
    ensures l[j] in after ==> l[i] in after
  {
    assert before[l[j]].lastUpdated < before[l[i]].lastUpdated;
    assert l[i] in before.Keys;
  }

  /** If a thread is evicted, only newer ones are kept. */
  lemma {:induction false} KeptAreNewer(l: Order, before: Threads, max: nat, after: Threads, i: nat)
    requires Represents(l, before) && Evicted(before, max, after) && i < |l| && l[i] !in after
    ensures |after| <= i
  {
    forall j | i < j < |l| ensures l[j] !in after {
      KeptDownward(l, before, max, after, i, j);
    }
    forall k | k in after.Keys ensures k in l[..i] {
      MemberOf(l, before, k);
      var j :| 0 <= j < |l| && l[j] == k;
      assert l[..i][j] == k;
    }
    PrefixSize(l, i, after.Keys);
  }

  /** If a thread is kept, all newer ones are. */
  lemma {:induction false} NewerAreKept(l: Order, before: Threads, max: nat, after: Threads, i: nat)
    requires Represents(l, before) && Evicted(before, max, after) && i < |l| && l[i] in after
    ensures i + 1 <= |after|
  {
    forall k | k in l[..i + 1] ensures k in after.Keys {
      var j :| 0 <= j < i + 1 && l[j] == k;
      if j < i {
        KeptDownward(l, before, max, after, j, i);
      }
    }
    PrefixCovers(l, i + 1, after.Keys);
  }

  lemma PrefixSize(l: Order, n: nat, ids: set<string>)
    requires NoRepeats(l) && n <= |l| && forall k :: k in ids ==> k in l[..n]
    ensures |ids| <= n
  {
    var all := set k | k in l[..n];
    DistinctSize(l[..n], all);
    SubsetSize(ids, all);
  }

  lemma PrefixCovers(l: Order, n: nat, ids: set<string>)
    requires NoRepeats(l) && n <= |l| && forall k :: k in l[..n] ==> k in ids
    ensures n <= |ids|
  {
    var all := set k | k in l[..n];
    DistinctSize(l[..n], all);
    SubsetSize(all, ids);
  }

  lemma SubsetSize(a: set<string>, b: set<string>)
    requires a <= b
    ensures |a| <= |b|
  {
    assert b == a + (b - a);
  }

  // ----- The refinement -----

  lemma {:induction false} StreamRefines(
      c: Codec, max: nat, s: Threads, id: string, change: Change, now: int, s': Threads, reply: Reply,
      l: Order)
    requires Represents(l, s) && |s| <= max && (forall k :: k in s ==> s[k].lastUpdated < now)
    requires StreamStep(c, max, s, id, change, now, s', reply.output)
    ensures Represents(if Refused(reply.output) then l else AtMost(MoveToFront(l, id), max), s') && |s'| <= max
  {
    hide ProjectState, Accept, InsertTurns, DiffEvents, DiffFits, FirstEvents, HasSynthesizedTurn, Represents, Evicted,
      MoveToFront;
    var accepted := Accept(c, s, id, change);
    if accepted.Some? && !Refused(reply.output) {
      if id in s {
        assert s' == s[id := s'[id]] && s'[id].lastUpdated == now;
        UpdateMovesToFront(l, s, id, s'[id]);
        assert s'.Keys == s.Keys;
        assert |s'| == |s'.Keys| == |s.Keys| == |s|;
        DistinctSizeOf(MoveToFront(l, id), s');
      } else {
        FreshTime(accepted.value, now);
        UpdateMovesToFront(l, s, id, FreshCache(accepted.value, now));
        EvictionKeepsFirst(MoveToFront(l, id), s[id := FreshCache(accepted.value, now)], max, s');
      }
    }
  }

  lemma FreshTime(a: Accepted, now: int)
    ensures FreshCache(a, now).lastUpdated == now
  {
  }

  lemma {:induction false} SeedRefines(
      c: Codec, max: nat, s: Threads, id: string, raw: Value, now: int, s': Threads, l: Order)
    requires Represents(l, s) && |s| <= max && (forall k :: k in s ==> s[k].lastUpdated < now)
    requires SeedStep(c, max, s, id, raw, now, s')
    ensures Represents(if ProjectState(c, id, raw).Err? then l else AtMost(MoveToFront(l, id), max), s') && |s'| <= max
  {
    hide ProjectState, InsertTurns, Represents, Evicted, MoveToFront;
    if ProjectState(c, id, raw).Ok? {
      var a := Accepted(raw, ProjectState(c, id, raw).value);
      FreshTime(a, now);
      UpdateMovesToFront(l, s, id, FreshCache(a, now));
      EvictionKeepsFirst(MoveToFront(l, id), s[id := FreshCache(a, now)], max, s');
    }
  }

  lemma {:induction false} DeleteRefines(l: Order, s: Threads, max: nat, id: string)
    requires Represents(l, s) && |s| <= max
    ensures Represents(Delete(l, id), s - {id}) && |s - {id}| <= max
  {
    DeleteOrdered(l, s, id);
    SubsetSize((s - {id}).Keys, s.Keys);
    assert |s - {id}| == |(s - {id}).Keys| && |s| == |s.Keys|;
  }

  /**
    Every operation, writing at a later time than all updates, does to the cache what it does to the list,
    and the cache stays within its size.
   */
  lemma {:induction false} StepRefines(
      c: Codec, max: nat, s: Threads, op: BridgeOp, s': Threads, reply: Reply, l: Order)
    requires Coherent(c, s) && Represents(l, s) && |s| <= max && Later(s, op)
    requires Step(c, max, s, op, s', reply)
    ensures Represents(ListStep(l, max, op, TakenUp(c, op, reply)), s') && |s'| <= max
  {
    hide StreamStep, SeedStep, StaleStep, Coherent, Delete, AtMost, MoveToFront, ProjectState, Represents;
    match op
    case Process(StreamStateChanged(id, change), now) => StreamRefines(c, max, s, id, change, now, s', reply, l);
    case Process(Archived(id), now) => DeleteRefines(l, s, max, id);
    case Seed(id, raw, now) => SeedRefines(c, max, s, id, raw, now, s', l);
    case Forget(id) => DeleteRefines(l, s, max, id);
    case CheckStale(now, threshold) => StaleCheckIdle(c, max, s, now, threshold, s', reply);
    case Reset => EmptyRepresented();
    case _ =>
  }

  /** The list after the first `i` operations of a run. */
  function ListAfter(c: Codec, max: nat, ops: seq<BridgeOp>, replies: seq<Reply>, i: nat): Order
    requires i <= |ops| == |replies|
  {
    if i == 0 then []
    else ListStep(ListAfter(c, max, ops, replies, i - 1), max, ops[i - 1], TakenUp(c, ops[i - 1], replies[i - 1]))
  }

  /** On every run with strictly increasing update times the cache is a recency list of bounded length. */
  lemma {:induction false} RunRefinesRecencyList(c: Codec, max: nat, r: Run, i: nat)
    requires IsRun(c, max, r) && i <= |r.ops|
    requires forall j :: 0 <= j < i ==> Later(r.states[j], r.ops[j])
    ensures Represents(ListAfter(c, max, r.ops, r.replies, i), r.states[i]) && |r.states[i]| <= max
  {
    hide Step, Coherent, Represents, ListStep, Later;
    if i == 0 {
      EmptyRepresented();
    } else {
      RunRefinesRecencyList(c, max, r, i - 1);
      CoherentOverRuns(c, max, r, i - 1);
      assert StepAt(c, max, r, i - 1);
      assert Later(r.states[i - 1], r.ops[i - 1]);
      var before := ListAfter(c, max, r.ops, r.replies, i - 1);
      StepRefines(c, max, r.states[i - 1], r.ops[i - 1], r.states[i], r.replies[i - 1], before);
    }
  }

  lemma EmptyRepresented()
    ensures Represents([], map[])
  {
  }
}
