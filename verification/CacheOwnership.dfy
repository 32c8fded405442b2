/** What holds in every reachable state of the racing cache: locking, memory safety, and who owns each cached object. */
module CacheOwnership {
  import opened Options
  import opened CacheTable
  import opened CacheSteps

  /** The lock a thread holds. */
  function Holds(pc: PC): Option<nat> {
    if pc.Scan? || pc.Unlink? || pc.Hold? || pc.Link? || pc.Register? || pc.Release? then Some(LockFor(pc.job)) else None
  }

  /** The entry that a thread alone may free: a new one, one whose timer it stopped, or one whose timer fires. */
  function Claim(pc: PC): Option<Id> {
    match pc
    case Idle => None
    case Unlink(_, e, _) => Some(e)
    case Hold(_, e, _) => Some(e)
    case Loose(_, e) => Some(e)
    case Release(_) => None
    case _ => if pc.job.Add? then Some(pc.job.e) else if pc.job.Fire? then Some(pc.job.e) else None
  }

  /** Is the claimed entry in its list? */
  predicate InList(pc: PC) {
    pc.Unlink? || pc.Register? || (pc.Lock? && pc.job.Fire?)
  }

  predicate IsFire(job: Job, e: Id) {
    job.Fire? && job.e == e
  }

  predicate JobOk(pc: PC) {
    pc != Idle ==>
      && BucketOf(pc.job) < BUCKETS
      && (pc.Link? || pc.Register? ==> pc.job.Add?)
      && (pc.Scan? ==> !pc.job.Fire?)
      && (pc.Unlink? ==> Stops(pc.job) || IsFire(pc.job, pc.e))
      && (pc.Hold? ==> Stops(pc.job) || IsFire(pc.job, pc.e) || pc.job.Add?)
      && (pc.Loose? ==> (Stops(pc.job) && !pc.job.Sweep?) || IsFire(pc.job, pc.e) || pc.job.Add?)
      && ((pc.Hold? || pc.Loose?) && pc.job.Add? ==> pc.e == pc.job.e)
      && (pc.Release? ==> !pc.job.Fire?)
  }

  /** Is this an entry that the job is after? */
  predicate Serves(n: Node, job: Job) {
    && (job.Get? || job.Del? ==> n.key == job.key)
    && (job.Sweep? ==> exists i :: 0 <= i < |job.prefixes| && job.prefixes[i] <= n.key)
  }

  predicate ClaimOk(s: State, pc: PC)
    requires |s.lists| == BUCKETS && JobOk(pc)
  {
    Claim(pc).Some? ==>
      var e := Claim(pc).value;
      && e in s.heap && Bucket(s.heap[e].hash) == BucketOf(pc.job)
      && Serves(s.heap[e], pc.job)
      && (e in s.lists[BucketOf(pc.job)] <==> InList(pc))
      && if pc.job.Fire? then e in s.timers && s.timers[e] == Firing else e !in s.timers
  }

  predicate CursorOk(s: State, pc: PC)
    requires |s.lists| == BUCKETS && JobOk(pc)
  {
    && (pc.Scan? && pc.cur.Some? ==> pc.cur.value in s.lists[BucketOf(pc.job)])
    && ((pc.Unlink? || pc.Hold?) && pc.next.Some? ==> pc.next.value in s.lists[BucketOf(pc.job)] && pc.next.value != pc.e)
  }

  predicate Local(s: State, pc: PC) {
    |s.lists| == BUCKETS && JobOk(pc) && ClaimOk(s, pc) && CursorOk(s, pc)
  }

  predicate Distinct(list: seq<Id>) {
    forall i, j :: 0 <= i < j < |list| ==> list[i] != list[j]
  }

  /** The entries of a list are allocated, and are in that list only, once. */
  predicate ListOk(s: State, b: nat)
    requires b < |s.lists|
  {
    && Distinct(s.lists[b])
    && forall e :: e in s.lists[b] ==> e in s.heap && Bucket(s.heap[e].hash) == b
  }

  ghost predicate LocksOk(s: State) {
    && |s.locks| == LOCKS
    && forall l, t: nat :: 0 <= l < LOCKS ==> (s.locks[l] == Some(t) <==> t < |s.pcs| && Holds(s.pcs[t]) == Some(l))
  }

  predicate Apart(s: State) {
    forall t, u :: 0 <= t < |s.pcs| && 0 <= u < |s.pcs| && t != u ==>
      Claim(s.pcs[t]).None? || Claim(s.pcs[t]) != Claim(s.pcs[u])
  }

  predicate Claimed(s: State, e: Id) {
    exists t :: 0 <= t < |s.pcs| && Claim(s.pcs[t]) == Some(e)
  }

  /** An entry that nobody claims is in its list, and its timer is running. */
  predicate Cached(s: State, e: Id)
    requires |s.lists| == BUCKETS && e in s.heap
  {
    e in s.lists[Bucket(s.heap[e].hash)] && e in s.timers && s.timers[e] != Firing
  }

  predicate Accounted(s: State)
    requires |s.lists| == BUCKETS
  {
    && (forall e :: e in s.heap ==> Claimed(s, e) || Cached(s, e))
    && (forall e :: e in s.timers ==> e in s.heap)
  }

  ghost function Any(heap: map<Id, Node>): (e: Id)
    requires heap != map[]
    ensures e in heap
  {
    var e :| e in heap;
    e
  }

  /** The objects in allocated entries, under the keys of those. */
  ghost function Objects(heap: map<Id, Node>): multiset<Keyed>
    decreases |heap|
  {
    if heap == map[] then multiset{} else
      var e := Any(heap);
      Shrinks(heap, e);
      Objects(heap - {e}) + multiset{Keyed(heap[e].key, heap[e].value)}
  }

  lemma Shrinks(heap: map<Id, Node>, e: Id)
    requires e in heap
    ensures |heap - {e}| < |heap|
  {
    assert (heap - {e}).Keys == heap.Keys - {e};
    assert |heap.Keys - {e}| == |heap.Keys| - 1;
  }

  /** No object is lost or doubled. */
  ghost predicate Conserved(s: State) {
    s.added == Objects(s.heap) + s.handed + s.freed
  }

  ghost predicate Structure(s: State) {
    && |s.lists| == BUCKETS
    && (forall b :: 0 <= b < BUCKETS ==> ListOk(s, b))
    && (forall t :: 0 <= t < |s.pcs| ==> Local(s, s.pcs[t]))
    && Apart(s)
    && Accounted(s)
  }

  ghost predicate Inv(s: State) {
    Structure(s) && LocksOk(s) && Conserved(s)
  }

  lemma JobLock(job: Job)
    ensures LockFor(job) == LockOfBucket(BucketOf(job))
    ensures BucketOf(job) < BUCKETS ==> LockFor(job) < LOCKS
  {
    if !job.Sweep? {
      BucketHasOneLock(job.h);
    }
  }

  lemma ObjectsOf(heap: map<Id, Node>)
    requires heap != map[]
    ensures var n := heap[Any(heap)]; Objects(heap) == Objects(heap - {Any(heap)}) + multiset{Keyed(n.key, n.value)}
  {
  }

  lemma {:induction false} TakeOut(heap: map<Id, Node>, e: Id)
    requires e in heap
    ensures Objects(heap) == Objects(heap - {e}) + multiset{Keyed(heap[e].key, heap[e].value)}
    decreases |heap|
  {
    hide Objects;
    ObjectsOf(heap);
    var c := Any(heap);
    if c != e {
      var rest := heap - {c} - {e};
      assert heap - {e} - {c} == rest;
      Shrinks(heap, c);
      Shrinks(heap, e);
      TakeOut(heap - {c}, e);
      TakeOut(heap - {e}, c);
    }
  }

  lemma PutIn(heap: map<Id, Node>, e: Id, node: Node)
    requires e !in heap
    ensures Objects(heap[e := node]) == Objects(heap) + multiset{Keyed(node.key, node.value)}
  {
    TakeOut(heap[e := node], e);
    assert heap[e := node] - {e} == heap;
  }

  /** Only thread t moves, and of all entries only x may change, in the heap, in its timer or in its list. */
  ghost predicate Frame(s: State, s2: State, t: nat, x: Option<Id>) {
    && |s.lists| == |s2.lists| == BUCKETS && |s.locks| == |s2.locks| == LOCKS && |s.pcs| == |s2.pcs|
    && (forall u :: 0 <= u < |s.pcs| && u != t ==> s2.pcs[u] == s.pcs[u])
    && (forall b :: 0 <= b < BUCKETS && s2.lists[b] != s.lists[b] ==> s.locks[LockOfBucket(b)] == Some(t))
    && (forall l :: 0 <= l < LOCKS ==> s2.locks[l] == s.locks[l] || SwapsLock(s.locks[l], s2.locks[l], t))
    && (forall e: Id :: Some(e) != x ==> SameEntry(s, s2, e))
  }

  predicate SwapsLock(before: Option<nat>, now: Option<nat>, t: nat) {
    (before == None && now == Some(t)) || (before == Some(t) && now == None)
  }

  predicate SameEntry(s: State, s2: State, e: Id)
    requires |s.lists| == |s2.lists|
  {
    && (e in s.heap <==> e in s2.heap) && (e in s.heap ==> s.heap[e] == s2.heap[e])
    && (e in s.timers <==> e in s2.timers) && (e in s.timers ==> s.timers[e] == s2.timers[e])
    && (forall b :: 0 <= b < |s.lists| ==> (e in s.lists[b] <==> e in s2.lists[b]))
  }

  /** No step of one thread disturbs another. */
  lemma OthersKeep(s: State, s2: State, t: nat, x: Option<Id>, u: nat)
    requires Structure(s) && LocksOk(s) && Frame(s, s2, t, x)
    requires u < |s.pcs| && u != t && (x.Some? ==> Claim(s.pcs[u]) != x)
    ensures Local(s2, s2.pcs[u])
  {
    var pc := s.pcs[u];
    assert Local(s, pc);
    if Claim(pc).Some? {
      assert SameEntry(s, s2, Claim(pc).value);
    }
    if pc != Idle && Holds(pc).Some? {
      var b := BucketOf(pc.job);
      JobLock(pc.job);
      assert s.locks[LockOfBucket(b)] == Some(u);
      assert s2.lists[b] == s.lists[b];
    }
  }

  /** No other thread has a claim on x. */
  ghost predicate Unshared(s: State, t: nat, x: Option<Id>) {
    x.Some? ==> forall u :: 0 <= u < |s.pcs| && u != t ==> Claim(s.pcs[u]) != x
  }

  /** Whatever x is after the step, it is accounted for. */
  ghost predicate Settled(s2: State, q: PC, x: Option<Id>)
    requires |s2.lists| == BUCKETS
  {
    x.Some? ==>
      && (x.value in s2.heap ==> Claim(q) == x || Cached(s2, x.value))
      && (x.value in s2.timers ==> x.value in s2.heap)
  }

  lemma ApartKept(s: State, s2: State, t: nat, x: Option<Id>)
    requires Apart(s) && t < |s.pcs| == |s2.pcs| && Unshared(s, t, x)
    requires forall u :: 0 <= u < |s.pcs| && u != t ==> s2.pcs[u] == s.pcs[u]
    requires Claim(s2.pcs[t]) in {None, x}
    ensures Apart(s2)
  {
    hide Claim;
  }

  lemma AccountedKept(s: State, s2: State, t: nat, x: Option<Id>)
    requires |s.lists| == BUCKETS && t < |s.pcs| && Accounted(s) && Frame(s, s2, t, x)
    requires Claim(s.pcs[t]) in {None, x} && Settled(s2, s2.pcs[t], x)
    ensures Accounted(s2)
  {
    hide Claim;
    forall e | e in s2.heap
      ensures Claimed(s2, e) || Cached(s2, e)
    {
      if Some(e) == x {
      } else {
        assert SameEntry(s, s2, e);
        if Claimed(s, e) {
          var u :| 0 <= u < |s.pcs| && Claim(s.pcs[u]) == Some(e);
          assert Claim(s2.pcs[u]) == Some(e);
        }
      }
    }
    forall e | e in s2.timers
      ensures e in s2.heap
    {
      assert Some(e) != x ==> SameEntry(s, s2, e);
    }
  }

  /** A step keeps the structure if it frames x, and leaves its own thread, the lists and x in order. */
  lemma StructureKept(s: State, s2: State, t: nat, x: Option<Id>)
    requires Structure(s) && LocksOk(s) && t < |s.pcs| && Frame(s, s2, t, x) && Unshared(s, t, x)
    requires Claim(s.pcs[t]) in {None, x} && Claim(s2.pcs[t]) in {None, x}
    requires Local(s2, s2.pcs[t]) && Settled(s2, s2.pcs[t], x)
    requires forall b :: 0 <= b < BUCKETS ==> ListOk(s2, b)
    ensures Structure(s2)
  {
    hide Claim, Local, ListOk;
    ApartKept(s, s2, t, x);
    AccountedKept(s, s2, t, x);
    forall u | 0 <= u < |s2.pcs|
      ensures Local(s2, s2.pcs[u])
    {
      if u != t {
        OthersKeep(s, s2, t, x, u);
      }
    }
  }

  /** A thread takes a free lock, gives up its own, or neither. */
  lemma LocksKept(s: State, s2: State, t: nat)
    requires LocksOk(s) && t < |s.pcs| == |s2.pcs|
    requires forall u :: 0 <= u < |s.pcs| && u != t ==> s2.pcs[u] == s.pcs[u]
    requires var h, h2 := Holds(s.pcs[t]), Holds(s2.pcs[t]);
             || (s2.locks == s.locks && h == h2)
             || (h == None && h2.Some? && h2.value < LOCKS && s.locks[h2.value] == None && s2.locks == s.locks[h2.value := Some(t)])
             || (h2 == None && h.Some? && h.value < LOCKS && s2.locks == s.locks[h.value := None])
    ensures LocksOk(s2)
  {
    hide Holds;
  }
}
