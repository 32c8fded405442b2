/** What the users of the racing cache rely on, in every reachable state. */
module CacheGuarantees {
  import opened Options
  import opened CacheTable
  import opened CacheSteps
  import opened CacheOwnership
  import opened CacheSafety

  ghost predicate Reachable(s: State) {
    exists s0, actions :: Initial(s0) && IsRun(s0, actions) && Reached(s0, actions) == s
  }

  lemma ReachableIsOk(s: State)
    requires Reachable(s)
    ensures Inv(s)
  {
    hide Inv;
    var s0, actions :| Initial(s0) && IsRun(s0, actions) && Reached(s0, actions) == s;
    Begins(s0);
    EveryRunFrom(s0, actions);
  }

  /** The entries that a thread's next step may read or write through a pointer. */
  predicate Touches(pc: PC, e: Id) {
    || Claim(pc) == Some(e)
    || (pc.Scan? && pc.cur == Some(e))
    || ((pc.Unlink? || pc.Hold?) && pc.next == Some(e))
  }

  /** Nothing is used after it was freed: neither an entry by a thread or a list, nor a timer by a search. */
  lemma NoUseAfterFree(s: State)
    requires Reachable(s)
    ensures forall t, e :: 0 <= t < |s.pcs| && Touches(s.pcs[t], e) ==> e in s.heap
    ensures forall b, e :: 0 <= b < |s.lists| && e in s.lists[b] ==> e in s.heap
    ensures forall t :: 0 <= t < |s.pcs| && s.pcs[t].Scan? && s.pcs[t].cur.Some? ==> s.pcs[t].cur.value in s.timers
  {
    ReachableIsOk(s);
    forall t, e | 0 <= t < |s.pcs| && Touches(s.pcs[t], e)
      ensures e in s.heap
    {
      TouchesAllocated(s, t, e);
    }
    forall b, e | 0 <= b < |s.lists| && e in s.lists[b]
      ensures e in s.heap
    {
      assert ListOk(s, b);
    }
    forall t | 0 <= t < |s.pcs| && s.pcs[t].Scan? && s.pcs[t].cur.Some?
      ensures s.pcs[t].cur.value in s.timers
    {
      TimerExists(s, t);
    }
  }

  lemma TouchesAllocated(s: State, t: nat, e: Id)
    requires Structure(s) && t < |s.pcs| && Touches(s.pcs[t], e)
    ensures e in s.heap
  {
    ThreadIsLocal(s, t);
    assert s.pcs[t] != Idle ==> ListOk(s, BucketOf(s.pcs[t].job));
  }

  /** Whoever else claims an entry that a search is looking at is its timer callback, waiting for the lock. */
  lemma TimerExists(s: State, t: nat)
    requires Inv(s) && t < |s.pcs| && s.pcs[t].Scan? && s.pcs[t].cur.Some?
    ensures s.pcs[t].cur.value in s.timers
  {
    hide Conserved, Apart;
    var c := s.pcs[t].cur.value;
    var b := BucketOf(s.pcs[t].job);
    ThreadIsLocal(s, t);
    assert ListOk(s, b) && c in s.heap;
    if !Cached(s, c) {
      var u :| 0 <= u < |s.pcs| && Claim(s.pcs[u]) == Some(c);
      ThreadIsLocal(s, u);
      assert InList(s.pcs[u]);
      if Holds(s.pcs[u]).Some? {
        LockIsHeld(s, u);
        LockIsHeld(s, t);
        assert false;
      }
    }
  }

  /** Two threads never search or edit the same list at once. */
  lemma ListsAreExclusive(s: State, t: nat, u: nat)
    requires Reachable(s) && t < |s.pcs| && u < |s.pcs|
    requires Holds(s.pcs[t]).Some? && Holds(s.pcs[u]).Some? && BucketOf(s.pcs[t].job) == BucketOf(s.pcs[u].job)
    ensures t == u
  {
    hide Inv;
    ReachableIsOk(s);
    LockIsHeld(s, t);
    LockIsHeld(s, u);
  }

  /** Every allocated entry is cached, with its timer running, or else claimed by exactly one thread. */
  lemma OneOwner(s: State, e: Id)
    requires Reachable(s) && e in s.heap
    ensures |s.lists| == BUCKETS && (Cached(s, e) <==> !Claimed(s, e))
    ensures forall t, u :: 0 <= t < |s.pcs| && 0 <= u < |s.pcs| && Claim(s.pcs[t]) == Claim(s.pcs[u]) == Some(e) ==> t == u
  {
    hide LocksOk, Conserved, ListOk;
    ReachableIsOk(s);
    if Claimed(s, e) {
      var t :| 0 <= t < |s.pcs| && Claim(s.pcs[t]) == Some(e);
      ThreadIsLocal(s, t);
    }
  }

  /** At any time, every object passed to pcache_add was handed to a pcache_get, was freed, or is in an entry. */
  lemma NothingIsLostOrDoubled(s: State)
    requires Reachable(s)
    ensures s.added == Objects(s.heap) + s.handed + s.freed
  {
    ReachableIsOk(s);
  }

  predicate Contains(heap: map<Id, Node>, x: Keyed) {
    exists e :: e in heap && heap[e].key == x.key && heap[e].value == x.value
  }

  lemma {:induction false} ObjectsContain(heap: map<Id, Node>, x: Keyed)
    ensures Objects(heap)[x] > 0 <==> Contains(heap, x)
    decreases |heap|
  {
    if heap == map[] {
      NoObjects(x);
    } else {
      hide Objects;
      ObjectsOf(heap);
      var c := Any(heap);
      Shrinks(heap, c);
      ObjectsContain(heap - {c}, x);
      if Contains(heap, x) {
        var e :| e in heap && heap[e].key == x.key && heap[e].value == x.value;
        assert e != c ==> e in heap - {c} && (heap - {c})[e] == heap[e];
      }
      if Contains(heap - {c}, x) {
        var e :| e in heap - {c} && (heap - {c})[e].key == x.key && (heap - {c})[e].value == x.value;
        assert heap[e] == (heap - {c})[e];
      }
    }
  }

  lemma NoObjects(x: Keyed)
    ensures Objects(map[])[x] == 0
  {
  }

  lemma ObjectsTwice(heap: map<Id, Node>, c: Id, e: Id)
    requires c in heap && e in heap && c != e && heap[c].key == heap[e].key && heap[c].value == heap[e].value
    ensures Objects(heap)[Keyed(heap[e].key, heap[e].value)] >= 2
  {
    hide Objects;
    TakeOut(heap, c);
    TakeOut(heap - {c}, e);
  }

  /**
   * Cache ownership: an object that was added once under a key is in exactly one of three places, an entry of that key,
   * the callers who asked for that key, or the free callbacks; in at most one entry, handed out at most once and freed
   * at most once.
   */
  lemma ExactlyOnePlace(s: State, x: Keyed)
    requires Reachable(s) && s.added[x] == 1
    ensures Contains(s.heap, x) ==> s.handed[x] == 0 && s.freed[x] == 0
    ensures !Contains(s.heap, x) ==> s.handed[x] + s.freed[x] == 1
    ensures forall c, e | c in s.heap && e in s.heap && s.heap[c].key == s.heap[e].key == x.key
                          && s.heap[c].value == s.heap[e].value == x.value :: c == e
  {
    hide Objects, Inv;
    NothingIsLostOrDoubled(s);
    ObjectsContain(s.heap, x);
    forall c, e | c in s.heap && e in s.heap && s.heap[c].key == s.heap[e].key == x.key
                  && s.heap[c].value == s.heap[e].value == x.value
      ensures c == e
    {
      if c != e {
        ObjectsTwice(s.heap, c, e);
      }
    }
  }

  /** What a key's callers were handed, as often as they were, was added under that key; what was freed was added too. */
  lemma HandedWasAdded(s: State, x: Keyed)
    requires Reachable(s)
    ensures s.handed[x] + s.freed[x] <= s.added[x]
  {
    NothingIsLostOrDoubled(s);
  }

  /**
   * What a pcache_get or pcache_del is about to dispose of is an entry of its own key, and what a sweep is about to free
   * has a key that one of its prefixes starts.
   */
  lemma OnlyItsOwn(s: State, t: nat)
    requires Reachable(s) && t < |s.pcs| && (s.pcs[t].Unlink? || s.pcs[t].Hold? || s.pcs[t].Loose?)
    ensures var job, e := s.pcs[t].job, s.pcs[t].e;
            && e in s.heap && (job.Get? || job.Del? ==> s.heap[e].key == job.key)
            && (job.Sweep? ==> exists i :: 0 <= i < |job.prefixes| && job.prefixes[i] <= s.heap[e].key)
  {
    hide Conserved, LocksOk;
    ReachableIsOk(s);
    ThreadIsLocal(s, t);
  }

  /** With all calls returned, what was not handed out or freed is cached. */
  lemma QuietCacheHasNoStrays(s: State)
    requires Reachable(s) && forall t :: 0 <= t < |s.pcs| ==> s.pcs[t] == Idle
    ensures |s.lists| == BUCKETS && forall e :: e in s.heap ==> Cached(s, e)
    ensures s.added == Objects(s.heap) + s.handed + s.freed
  {
    NothingIsLostOrDoubled(s);
    forall e | e in s.heap
      ensures |s.lists| == BUCKETS && Cached(s, e)
    {
      OneOwner(s, e);
    }
    ReachableIsOk(s);
  }

  /** A thread in its critical section can always take a step. */
  lemma HolderIsReady(s: State, u: nat)
    requires Inv(s) && u < |s.pcs| && Holds(s.pcs[u]).Some?
    ensures Ready(s, u)
  {
    hide Claim, Accounted, Conserved, Apart, ListOk;
    ThreadIsLocal(s, u);
    JobLock(s.pcs[u].job);
  }

  lemma WaiterOrHolder(s: State, t: nat)
    requires Inv(s) && t < |s.pcs| && s.pcs[t] != Idle && !Ready(s, t)
    ensures exists u: nat :: u < |s.pcs| && Holds(s.pcs[u]).Some?
  {
    hide Claim, Accounted, Conserved, Apart, ListOk, Holds, ClaimOk, CursorOk;
    ThreadIsLocal(s, t);
    JobLock(s.pcs[t].job);
    var l := LockFor(s.pcs[t].job);
    var u := s.locks[l].value;
    assert Holds(s.pcs[u]) == Some(l);
  }

  /** The cache never stops by itself: a call under way can take a step, or waits for a thread that can. */
  lemma NoDeadlock(s: State, t: nat)
    requires Reachable(s) && t < |s.pcs| && s.pcs[t] != Idle
    ensures exists u :: Ready(s, u)
  {
    hide Inv, Ready, Holds;
    ReachableIsOk(s);
    if !Ready(s, t) {
      WaiterOrHolder(s, t);
      var u: nat :| u < |s.pcs| && Holds(s.pcs[u]).Some?;
      HolderIsReady(s, u);
    }
  }
}
