/** Every step of the racing cache keeps what CacheOwnership states, so it holds in every reachable state. */
module CacheSafety {
  import opened Options
  import opened CacheLists
  import opened CacheTable
  import opened CacheSteps
  import opened CacheOwnership

  lemma ClaimIsMine(s: State, t: nat)
    requires Structure(s) && t < |s.pcs|
    ensures Unshared(s, t, Claim(s.pcs[t]))
  {
    hide Claim, Local, ListOk, Accounted;
  }

  /** The locks before and after a step of thread t. */
  ghost predicate LockMoves(s: State, s2: State, t: nat)
    requires t < |s.pcs| == |s2.pcs|
  {
    var h, h2 := Holds(s.pcs[t]), Holds(s2.pcs[t]);
    || (s2.locks == s.locks && h == h2)
    || (h == None && h2.Some? && h2.value < |s.locks| && s.locks[h2.value] == None && s2.locks == s.locks[h2.value := Some(t)])
    || (h2 == None && h.Some? && h.value < |s.locks| && s2.locks == s.locks[h.value := None])
  }

  /** A step that changes no entry, only where the thread is and what it holds. */
  lemma QuietStep(s: State, s2: State, t: nat)
    requires Inv(s) && t < |s.pcs| == |s2.pcs| && s2.pcs == s.pcs[t := s2.pcs[t]]
    requires s2 == s.(pcs := s2.pcs, locks := s2.locks) && LockMoves(s, s2, t)
    requires Claim(s2.pcs[t]) == Claim(s.pcs[t]) && Local(s2, s2.pcs[t])
    ensures Inv(s2)
  {
    hide Claim, Accounted, Holds;
    ClaimIsMine(s, t);
    LocksKept(s, s2, t);
    LockMovesFrame(s, s2, t);
    var x := Claim(s.pcs[t]);
    assert Local(s, s.pcs[t]);
    forall b | 0 <= b < BUCKETS
      ensures ListOk(s2, b)
    {
      assert ListOk(s, b);
    }
    assert Settled(s2, s2.pcs[t], x);
    StructureKept(s, s2, t, x);
  }

  lemma LockMovesFrame(s: State, s2: State, t: nat)
    requires |s.locks| == LOCKS && LocksOk(s) && t < |s.pcs| == |s2.pcs| && LockMoves(s, s2, t)
    ensures |s2.locks| == LOCKS
    ensures forall l :: 0 <= l < LOCKS ==> s2.locks[l] == s.locks[l] || SwapsLock(s.locks[l], s2.locks[l], t)
  {
    hide Holds;
  }

  lemma FirstIn(list: seq<Id>)
    ensures First(list).Some? ==> First(list).value in list
  {
  }

  lemma {:induction false} AfterIn(list: seq<Id>, e: Id)
    requires Distinct(list)
    ensures var r := After(list, e); r.Some? ==> r.value in list && r.value != e
  {
    if list != [] && list[0] != e {
      AfterIn(list[1..], e);
    }
  }

  lemma {:induction false} WithoutIn(list: seq<Id>, e: Id)
    requires Distinct(list)
    ensures Distinct(Without(list, e))
    ensures forall c :: c in Without(list, e) <==> c in list && c != e
  {
    if list == [] {
    } else {
      var tail := list[1..];
      assert list == [list[0]] + tail;
      assert list[0] !in tail;
      if list[0] != e {
        WithoutIn(tail, e);
      }
    }
  }

  /** What a thread needs to know about itself depends on the entries alone. */
  lemma SameEntries(s: State, s2: State, pc: PC)
    requires s2.heap == s.heap && s2.lists == s.lists && s2.timers == s.timers
    ensures Local(s2, pc) <==> Local(s, pc)
  {
  }

  lemma LocalAfterLock(s: State, job: Job)
    requires Local(s, Lock(job))
    ensures Local(s, AfterLock(s, job))
    ensures Claim(AfterLock(s, job)) == Claim(Lock(job)) && Holds(AfterLock(s, job)) == Some(LockFor(job))
  {
    FirstIn(ListOf(s, job));
  }

  lemma LockStep(s: State, t: nat)
    requires Inv(s) && Ready(s, t) && s.pcs[t].Lock?
    ensures Inv(Advance(s, t))
  {
    hide Local, Claim, Holds, AfterLock, JobOk, LocksOk, Accounted, Structure;
    var job, s2 := s.pcs[t].job, Advance(s, t);
    assert Local(s, s.pcs[t]) && Claim(Lock(job)) == Claim(s.pcs[t]) by { ThreadIsLocal(s, t); }
    LocalAfterLock(s, job);
    SameEntries(s, s2, AfterLock(s, job));
    HoldsNothing(s.pcs[t]);
    QuietStep(s, s2, t);
  }

  lemma ThreadIsLocal(s: State, t: nat)
    requires Structure(s) && t < |s.pcs|
    ensures Local(s, s.pcs[t]) && |s.lists| == BUCKETS && JobOk(s.pcs[t])
    ensures s.pcs[t] != Idle ==> BucketOf(s.pcs[t].job) < BUCKETS
  {
  }

  lemma HoldsNothing(pc: PC)
    requires pc.Idle? || pc.Lock? || pc.Loose?
    ensures Holds(pc) == None
  {
  }

  lemma LocalAtEnd(s: State, job: Job, n: nat)
    requires Local(s, Scan(job, None, n))
    ensures Local(s, AtEnd(job)) && Claim(AtEnd(job)) == Claim(Scan(job, None, n))
    ensures Holds(AtEnd(job)) == Some(LockFor(job))
  {
  }

  lemma EndStep(s: State, t: nat)
    requires Inv(s) && Ready(s, t) && s.pcs[t].Scan? && s.pcs[t].cur.None?
    ensures Inv(Advance(s, t))
  {
    hide Local, Claim, AtEnd, LocksOk, Accounted, Structure;
    var pc, s2 := s.pcs[t], Advance(s, t);
    ThreadIsLocal(s, t);
    LocalAtEnd(s, pc.job, pc.n);
    SameEntries(s, s2, AtEnd(pc.job));
    QuietStep(s, s2, t);
  }

  /** The turns of the search loops that only look. */
  predicate Looks(s: State, job: Job, c: Id) {
    !Hits(s, job, c) || !Stops(job) || !CanStop(s, c)
  }

  lemma LocalLook(s: State, t: nat, job: Job, c: Id, n: nat)
    requires t < |s.pcs| && Local(s, Scan(job, Some(c), n)) && Looks(s, job, c)
    requires Distinct(s.lists[BucketOf(job)])
    ensures var s2 := ScanStep(s, t, job, c, n);
            && s2 == s.(pcs := s.pcs[t := s2.pcs[t]])
            && Local(s, s2.pcs[t]) && Claim(s2.pcs[t]) == Claim(Scan(job, Some(c), n))
            && Holds(s2.pcs[t]) == Some(LockFor(job))
  {
    hide Hits;
    AfterIn(ListOf(s, job), c);
  }

  lemma ListIsDistinct(s: State, b: nat)
    requires Structure(s) && b < BUCKETS
    ensures ListOk(s, b) && Distinct(s.lists[b])
  {
  }

  lemma LookStep(s: State, t: nat)
    requires Inv(s) && Ready(s, t) && s.pcs[t].Scan? && s.pcs[t].cur.Some? && Looks(s, s.pcs[t].job, s.pcs[t].cur.value)
    ensures Inv(Advance(s, t))
  {
    hide Local, Claim, ScanStep, LocksOk, Accounted, Structure, Distinct;
    var pc, s2 := s.pcs[t], Advance(s, t);
    ThreadIsLocal(s, t);
    assert s2 == ScanStep(s, t, pc.job, pc.cur.value, pc.n);
    ListIsDistinct(s, BucketOf(pc.job));
    LocalLook(s, t, pc.job, pc.cur.value, pc.n);
    SameEntries(s, s2, s2.pcs[t]);
    QuietStep(s, s2, t);
  }

  lemma LocalLoose(s: State, job: Job, e: Id, next: Option<Id>)
    requires Local(s, Hold(job, e, next)) && !job.Sweep?
    ensures Local(s, Loose(job, e)) && Claim(Loose(job, e)) == Claim(Hold(job, e, next)) == Some(e)
    ensures Holds(Loose(job, e)) == None && Holds(Hold(job, e, next)) == Some(LockFor(job))
  {
  }

  lemma UnlockStep(s: State, t: nat)
    requires Inv(s) && Ready(s, t) && s.pcs[t].Hold? && !s.pcs[t].job.Sweep?
    ensures Inv(Advance(s, t))
  {
    hide Local, Claim, Holds, LocksOk, Accounted, Structure;
    var pc, s2 := s.pcs[t], Advance(s, t);
    ThreadIsLocal(s, t);
    LocalLoose(s, pc.job, pc.e, pc.next);
    SameEntries(s, s2, s2.pcs[t]);
    QuietStep(s, s2, t);
  }

  lemma LocalAfterRelease(s: State, job: Job)
    requires Local(s, Release(job))
    ensures var q := AfterRelease(job); Local(s, q) && Claim(q) == Claim(Release(job)) && Holds(q) == None
  {
  }

  lemma ReleaseStep(s: State, t: nat)
    requires Inv(s) && Ready(s, t) && s.pcs[t].Release?
    ensures Inv(Advance(s, t))
  {
    hide Local, Claim, LocksOk, Accounted, Structure, AfterRelease;
    var pc, s2 := s.pcs[t], Advance(s, t);
    ThreadIsLocal(s, t);
    LocalAfterRelease(s, pc.job);
    SameEntries(s, s2, s2.pcs[t]);
    QuietStep(s, s2, t);
  }

  /** Nobody has a claim on an entry whose timer has not fired. */
  lemma NobodyClaims(s: State, t: nat, e: Id)
    requires Structure(s) && e in s.timers && s.timers[e] != Firing
    ensures Unshared(s, t, Some(e)) && (t < |s.pcs| ==> Claim(s.pcs[t]) != Some(e))
    ensures e in s.heap && Cached(s, e)
  {
    forall u | 0 <= u < |s.pcs|
      ensures Claim(s.pcs[u]) != Some(e)
    {
      assert Local(s, s.pcs[u]);
    }
  }

  lemma ListsStay(s: State, s2: State)
    requires Structure(s) && s2.lists == s.lists
    requires forall e :: e in s.heap ==> e in s2.heap && s2.heap[e].hash == s.heap[e].hash
    ensures forall b :: 0 <= b < BUCKETS ==> ListOk(s2, b)
  {
    forall b | 0 <= b < BUCKETS
      ensures ListOk(s2, b)
    {
      assert ListOk(s, b);
    }
  }

  lemma LocalStopped(s: State, job: Job, c: Id, n: nat)
    requires Local(s, Scan(job, Some(c), n)) && Stops(job) && Distinct(s.lists[BucketOf(job)])
    requires c in s.heap && Bucket(s.heap[c].hash) == BucketOf(job) && Serves(s.heap[c], job)
    ensures var q := Unlink(job, c, After(ListOf(s, job), c));
            Local(s.(timers := s.timers - {c}), q) && Claim(q) == Some(c) && Claim(Scan(job, Some(c), n)) == None
            && Holds(q) == Holds(Scan(job, Some(c), n))
  {
    AfterIn(ListOf(s, job), c);
  }

  /** The other steps, which change the one entry x. */
  lemma TouchStep(s: State, s2: State, t: nat, x: Option<Id>)
    requires Inv(s) && t < |s.pcs| == |s2.pcs| && s2.pcs == s.pcs[t := s2.pcs[t]] && LockMoves(s, s2, t)
    requires |s2.lists| == BUCKETS
    requires forall b :: 0 <= b < BUCKETS && s2.lists[b] != s.lists[b] ==> s.locks[LockOfBucket(b)] == Some(t)
    requires forall e: Id :: Some(e) != x ==> SameEntry(s, s2, e)
    requires Unshared(s, t, x) && Claim(s.pcs[t]) in {None, x} && Claim(s2.pcs[t]) in {None, x}
    requires Local(s2, s2.pcs[t]) && Settled(s2, s2.pcs[t], x) && Conserved(s2)
    requires forall b :: 0 <= b < BUCKETS ==> ListOk(s2, b)
    ensures Inv(s2)
  {
    hide Claim, Accounted, Holds, Local, Conserved, SameEntry, Settled, Unshared;
    LocksKept(s, s2, t);
    LockMovesFrame(s, s2, t);
    StructureKept(s, s2, t, x);
  }

  lemma HitServes(s: State, job: Job, c: Id)
    requires Hits(s, job, c) && c in s.heap
    ensures Serves(s.heap[c], job)
  {
    if job.Sweep? {
      var i :| 0 <= i < |job.prefixes| && IsPrefix(job.prefixes[i], s.heap[c].key);
      assert job.prefixes[i] <= s.heap[c].key;
    }
  }

  /** ptimer_stop succeeds: the thread now owns the entry. */
  lemma StopStep(s: State, t: nat)
    requires Inv(s) && Ready(s, t) && s.pcs[t].Scan? && s.pcs[t].cur.Some?
    requires !Looks(s, s.pcs[t].job, s.pcs[t].cur.value)
    ensures Inv(Advance(s, t))
  {
    hide Claim, Holds, Accounted, Distinct, After;
    var pc, s2 := s.pcs[t], Advance(s, t);
    var job, c := pc.job, pc.cur.value;
    ThreadIsLocal(s, t);
    ListIsDistinct(s, BucketOf(job));
    HitServes(s, job, c);
    LocalStopped(s, job, c, pc.n);
    NobodyClaims(s, t, c);
    SameEntries(s.(timers := s.timers - {c}), s2, s2.pcs[t]);
    ListsStay(s, s2);
    TouchStep(s, s2, t, Some(c));
  }

  /** A thread in its critical section holds the lock of its bucket. */
  lemma LockIsHeld(s: State, t: nat)
    requires Inv(s) && t < |s.pcs| && Holds(s.pcs[t]).Some?
    ensures s.locks[LockOfBucket(BucketOf(s.pcs[t].job))] == Some(t)
  {
    hide Claim, Local, ListOk, Accounted;
    ThreadIsLocal(s, t);
    JobLock(s.pcs[t].job);
  }

  lemma LocalUnlinked(s: State, s2: State, job: Job, e: Id, next: Option<Id>)
    requires Local(s, Unlink(job, e, next)) && Distinct(s.lists[BucketOf(job)])
    requires s2.heap == s.heap && s2.timers == s.timers
    requires s2.lists == s.lists[BucketOf(job) := Without(s.lists[BucketOf(job)], e)]
    ensures Local(s2, Hold(job, e, next))
    ensures Claim(Hold(job, e, next)) == Claim(Unlink(job, e, next)) == Some(e)
    ensures Holds(Hold(job, e, next)) == Holds(Unlink(job, e, next)) == Some(LockFor(job))
    ensures e in s2.heap && forall c: Id :: c != e ==> SameEntry(s, s2, c)
  {
    WithoutIn(s.lists[BucketOf(job)], e);
  }

  lemma ListsWithout(s: State, s2: State, b: nat, e: Id)
    requires Structure(s) && b < BUCKETS && s2.heap == s.heap && s2.lists == s.lists[b := Without(s.lists[b], e)]
    ensures forall c :: 0 <= c < BUCKETS ==> ListOk(s2, c)
  {
    forall c | 0 <= c < BUCKETS
      ensures ListOk(s2, c)
    {
      assert ListOk(s, c);
      WithoutIn(s.lists[c], e);
    }
  }

  lemma UnlinkStep(s: State, t: nat)
    requires Inv(s) && Ready(s, t) && s.pcs[t].Unlink?
    ensures Inv(Advance(s, t))
  {
    hide Claim, Holds, Accounted, Distinct, Without, Local, SameEntry, ListOk, LocksOk, Structure;
    var pc, s2 := s.pcs[t], Advance(s, t);
    var job, e := pc.job, pc.e;
    ThreadIsLocal(s, t);
    ListIsDistinct(s, BucketOf(job));
    var s1 := WithList(s, BucketOf(job), Without(s.lists[BucketOf(job)], e));
    LocalUnlinked(s, s1, job, e, pc.next);
    SameEntries(s1, s2, s2.pcs[t]);
    LockIsHeld(s, t);
    ListsWithout(s, s2, BucketOf(job), e);
    ClaimIsMine(s, t);
    SameFromSame(s, s1, s2, e);
    TouchStep(s, s2, t, Some(e));
  }

  lemma SameFromSame(s: State, s1: State, s2: State, e: Id)
    requires |s.lists| == |s1.lists| && s2.heap == s1.heap && s2.lists == s1.lists && s2.timers == s1.timers
    requires forall c: Id :: c != e ==> SameEntry(s, s1, c)
    ensures forall c: Id :: c != e ==> SameEntry(s, s2, c)
  {
    forall c: Id | c != e
      ensures SameEntry(s, s2, c)
    {
      assert SameEntry(s, s1, c);
    }
  }

  /** What Dispose leaves behind when the entry is in no list. */
  lemma DisposedLists(s: State, job: Job, e: Id)
    requires |s.lists| == BUCKETS && e in s.heap && e !in s.lists[Bucket(s.heap[e].hash)]
    requires forall b :: 0 <= b < BUCKETS ==> ListOk(s, b)
    ensures forall b :: 0 <= b < BUCKETS ==> ListOk(Dispose(s, job, e), b)
  {
    hide Distinct;
    var s1 := Dispose(s, job, e);
    forall b | 0 <= b < BUCKETS
      ensures ListOk(s1, b)
    {
      assert ListOk(s, b);
    }
  }

  lemma DisposedEntries(s: State, job: Job, e: Id)
    ensures var s1 := Dispose(s, job, e);
            e !in s1.heap && e !in s1.timers && forall c: Id :: c != e ==> SameEntry(s, s1, c)
  {
  }

  lemma DisposedObjects(s: State, job: Job, e: Id)
    requires Conserved(s) && e in s.heap && Serves(s.heap[e], job)
    ensures Conserved(Dispose(s, job, e))
  {
    hide Objects;
    TakeOut(s.heap, e);
  }

  lemma SameLists(s: State, s2: State)
    requires s2.heap == s.heap && s2.lists == s.lists
    requires |s.lists| == BUCKETS && forall b :: 0 <= b < BUCKETS ==> ListOk(s, b)
    ensures forall b :: 0 <= b < BUCKETS ==> ListOk(s2, b)
  {
    forall b | 0 <= b < BUCKETS
      ensures ListOk(s2, b)
    {
      assert ListOk(s, b);
    }
  }

  lemma LocalDisposed(s: State, pc: PC, q: PC)
    requires Local(s, pc) && (pc.Hold? || pc.Loose?)
    requires pc.Hold? ==> pc.job.Sweep? && q == Scan(pc.job, pc.next, 0)
    requires pc.Loose? ==> q == AfterLoose(pc.job)
    ensures pc.e in s.heap && Bucket(s.heap[pc.e].hash) < BUCKETS && pc.e !in s.lists[Bucket(s.heap[pc.e].hash)]
    ensures Claim(pc) == Some(pc.e) && Claim(q) == None
    ensures Holds(q) == Holds(pc)
    ensures Serves(s.heap[pc.e], pc.job)
    ensures Local(Dispose(s, pc.job, pc.e), q)
  {
  }

  /** The object leaves the cache: to the caller of pcache_get, or to its free callback. */
  lemma DisposeStep(s: State, t: nat)
    requires Inv(s) && Ready(s, t)
    requires s.pcs[t].Loose? || (s.pcs[t].Hold? && s.pcs[t].job.Sweep?)
    ensures Inv(Advance(s, t))
  {
    hide Claim, Holds, Accounted, Local, SameEntry, ListOk, LocksOk, Structure, Dispose;
    var pc, s2 := s.pcs[t], Advance(s, t);
    var job, e := pc.job, pc.e;
    var s1 := Dispose(s, job, e);
    DisposeKeeps(s, job, e);
    ThreadIsLocal(s, t);
    LocalDisposed(s, pc, s2.pcs[t]);
    EntriesStay(s);
    DisposedLists(s, job, e);
    DisposedEntries(s, job, e);
    DisposedObjects(s, job, e);
    SameEntries(s1, s2, s2.pcs[t]);
    ClaimIsMine(s, t);
    SameFromSame(s, s1, s2, e);
    SameLists(s1, s2);
    TouchStep(s, s2, t, Some(e));
  }

  lemma DisposeKeeps(s: State, job: Job, e: Id)
    ensures var s1 := Dispose(s, job, e); s1.lists == s.lists && s1.locks == s.locks && s1.pcs == s.pcs
  {
  }

  lemma LocalLinked(s: State, s2: State, job: Job)
    requires Local(s, Link(job))
    requires s2.heap == s.heap && s2.timers == s.timers
    requires s2.lists == s.lists[BucketOf(job) := [job.e] + s.lists[BucketOf(job)]]
    ensures Local(s2, Register(job))
    ensures Claim(Register(job)) == Claim(Link(job)) == Some(job.e)
    ensures Holds(Register(job)) == Holds(Link(job)) == Some(LockFor(job))
    ensures job.e in s2.heap && forall c: Id :: c != job.e ==> SameEntry(s, s2, c)
  {
  }

  lemma ListsWith(s: State, s2: State, b: nat, e: Id)
    requires Structure(s) && b < BUCKETS && s2.heap == s.heap && s2.lists == s.lists[b := [e] + s.lists[b]]
    requires e in s.heap && Bucket(s.heap[e].hash) == b && e !in s.lists[b]
    ensures forall c :: 0 <= c < BUCKETS ==> ListOk(s2, c)
  {
    hide Claim, Local, Accounted;
    forall c | 0 <= c < BUCKETS
      ensures ListOk(s2, c)
    {
      assert ListOk(s, c);
    }
  }

  lemma LinkClaim(s: State, job: Job)
    requires Local(s, Link(job))
    ensures job.Add? && job.e in s.heap && Bucket(s.heap[job.e].hash) == BucketOf(job) < BUCKETS == |s.lists|
    ensures job.e !in s.lists[BucketOf(job)] && job.e !in s.timers
  {
  }

  lemma LinkStep(s: State, t: nat)
    requires Inv(s) && Ready(s, t) && s.pcs[t].Link?
    ensures Inv(Advance(s, t))
  {
    hide Claim, Holds, Accounted, Local, SameEntry, ListOk, LocksOk, Structure;
    var pc, s2 := s.pcs[t], Advance(s, t);
    var job := pc.job;
    ThreadIsLocal(s, t);
    LinkClaim(s, job);
    var s1 := WithList(s, BucketOf(job), [job.e] + s.lists[BucketOf(job)]);
    LocalLinked(s, s1, job);
    SameEntries(s1, s2, s2.pcs[t]);
    LockIsHeld(s, t);
    ListsWith(s, s2, BucketOf(job), job.e);
    ClaimIsMine(s, t);
    SameFromSame(s, s1, s2, job.e);
    TouchStep(s, s2, t, Some(job.e));
  }

  lemma RegisterClaim(s: State, job: Job)
    requires Local(s, Register(job))
    ensures job.Add? && job.e in s.heap && |s.lists| == BUCKETS && job.e in s.lists[Bucket(s.heap[job.e].hash)]
    ensures Claim(Register(job)) == Some(job.e) && Claim(Release(job)) == None
    ensures Local(s, Release(job)) && Holds(Release(job)) == Holds(Register(job))
  {
  }

  /** ptimer_register: from here on the entry belongs to its timer, and to whoever stops that. */
  lemma RegisterStep(s: State, t: nat)
    requires Inv(s) && Ready(s, t) && s.pcs[t].Register?
    ensures Inv(Advance(s, t))
  {
    hide Claim, Holds, Accounted, ListOk, LocksOk, Structure;
    var pc, s2 := s.pcs[t], Advance(s, t);
    ThreadIsLocal(s, t);
    RegisterClaim(s, pc.job);
    ClaimIsMine(s, t);
    EntriesStay(s);
    SameLists(s, s2);
    TouchStep(s, s2, t, Some(pc.job.e));
  }

  lemma EntriesStay(s: State)
    requires Structure(s)
    ensures |s.lists| == BUCKETS && forall b :: 0 <= b < BUCKETS ==> ListOk(s, b)
  {
  }

  lemma CallStep(s: State, t: nat, job: Job)
    requires Inv(s) && Enabled(s, Call(t, job))
    ensures Inv(Step(s, Call(t, job)))
  {
    var s2 := Step(s, Call(t, job));
    QuietStep(s, s2, t);
  }

  lemma FreshEntry(s: State, e: Id, node: Node)
    requires Structure(s) && e !in s.heap
    ensures e !in s.timers && forall t :: 0 <= t < |s.pcs| ==> Claim(s.pcs[t]) != Some(e)
    ensures forall b :: 0 <= b < BUCKETS ==> e !in s.lists[b]
    ensures var s1 := s.(heap := s.heap[e := node]); forall b :: 0 <= b < BUCKETS ==> ListOk(s1, b)
  {
    hide Claim, Distinct;
    forall t | 0 <= t < |s.pcs|
      ensures Claim(s.pcs[t]) != Some(e)
    {
      assert Local(s, s.pcs[t]);
    }
    var s1 := s.(heap := s.heap[e := node]);
    forall b | 0 <= b < BUCKETS
      ensures e !in s.lists[b] && ListOk(s1, b)
    {
      assert ListOk(s, b);
    }
  }

  lemma CallAddStep(s: State, t: nat, e: Id, node: Node, maxkeys: nat)
    requires Inv(s) && Enabled(s, CallAdd(t, e, node, maxkeys))
    ensures Inv(Step(s, CallAdd(t, e, node, maxkeys)))
  {
    hide Accounted, LocksOk, Structure, ListOk, Objects;
    var s2 := Step(s, CallAdd(t, e, node, maxkeys));
    EntriesStay(s);
    FreshEntry(s, e, node);
    PutIn(s.heap, e, node);
    SameLists(s.(heap := s.heap[e := node]), s2);
    TouchStep(s, s2, t, Some(e));
  }

  lemma PickStep(s: State, t: nat, e: Id)
    requires Inv(s) && Enabled(s, Pick(t, e))
    ensures Inv(Step(s, Pick(t, e)))
  {
    hide Accounted, LocksOk, Structure, ListOk, Objects;
    var s2 := Step(s, Pick(t, e));
    EntriesStay(s);
    NobodyClaims(s, t, e);
    SameLists(s, s2);
    TouchStep(s, s2, t, Some(e));
  }

  lemma CommitLocal(s: State, pc: PC, e: Id)
    requires Local(s, pc) && Claim(pc) != Some(e)
    ensures Local(s.(timers := s.timers[e := Committed]), pc)
  {
  }

  /** The timer thread commits to a callback; the entry stays cached, but can no longer be stopped. */
  lemma CommitStep(s: State, e: Id)
    requires Inv(s) && Enabled(s, Commit(e))
    ensures Inv(Step(s, Commit(e)))
    ensures var s2 := Step(s, Commit(e)); e in s2.heap && Cached(s2, e) && !Claimed(s2, e) && !CanStop(s2, e)
  {
    hide Claim, Objects, Local, Accounted, ListOk;
    var s2 := Step(s, Commit(e));
    EntriesStay(s);
    SameLists(s, s2);
    NobodyClaims(s, |s.pcs|, e);
    forall t | 0 <= t < |s2.pcs|
      ensures Local(s2, s2.pcs[t])
    {
      CommitLocal(s, s.pcs[t], e);
    }
    CommitAccounts(s, e);
  }

  lemma CommitAccounts(s: State, e: Id)
    requires |s.lists| == BUCKETS && Accounted(s) && e in s.timers && s.timers[e] == Armed
    ensures Accounted(s.(timers := s.timers[e := Committed]))
  {
    hide Claim;
    var s2 := s.(timers := s.timers[e := Committed]);
    forall c | c in s2.heap
      ensures Claimed(s2, c) || Cached(s2, c)
    {
      if Claimed(s, c) {
        var t :| 0 <= t < |s.pcs| && Claim(s.pcs[t]) == Some(c);
        assert Claim(s2.pcs[t]) == Some(c);
      }
    }
  }

  lemma RunStep(s: State, t: nat)
    requires Inv(s) && Ready(s, t)
    ensures Inv(Advance(s, t))
  {
    hide Inv, Advance, Looks, BucketOf, LockFor;
    match s.pcs[t]
    case Lock(_) => LockStep(s, t);
    case Scan(_, None, _) => EndStep(s, t);
    case Scan(job, Some(c), _) =>
      if Looks(s, job, c) {
        LookStep(s, t);
      } else {
        StopStep(s, t);
      }
    case Unlink(_, _, _) => UnlinkStep(s, t);
    case Hold(job, _, _) =>
      if job.Sweep? {
        DisposeStep(s, t);
      } else {
        UnlockStep(s, t);
      }
    case Loose(_, _) => DisposeStep(s, t);
    case Link(_) => LinkStep(s, t);
    case Register(_) => RegisterStep(s, t);
    case Release(_) => ReleaseStep(s, t);
    case Idle => NotReady(s, t);
  }

  lemma NotReady(s: State, t: nat)
    requires t < |s.pcs| && s.pcs[t] == Idle
    ensures !Ready(s, t)
  {
  }

  /** Every step of every thread, and of the timer thread, keeps the invariant. */
  lemma EveryStep(s: State, a: Action)
    requires Inv(s) && Enabled(s, a)
    ensures Inv(Step(s, a))
  {
    hide Inv, Ready, Advance;
    match a
    case Call(t, job) => CallStep(s, t, job);
    case CallAdd(t, e, node, maxkeys) => CallAddStep(s, t, e, node, maxkeys);
    case Commit(e) => CommitStep(s, e);
    case Pick(t, e) => PickStep(s, t, e);
    case Run(t) => RunStep(s, t);
  }

  lemma Begins(s: State)
    requires Initial(s)
    ensures Inv(s)
  {
  }

  lemma {:induction false} EveryRunFrom(s: State, actions: seq<Action>)
    requires Inv(s) && IsRun(s, actions)
    ensures Inv(Reached(s, actions))
    decreases |actions|
  {
    hide Inv, Step, Enabled;
    if actions == [] {
    } else {
      EveryStep(s, actions[0]);
      EveryRunFrom(Step(s, actions[0]), actions[1..]);
    }
  }
}
