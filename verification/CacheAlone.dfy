/** What a call of the racing cache does when it runs to its end while all other threads stand still, wherever they are. */
module CacheAlone {
  import opened Options
  import opened CacheLists
  import opened CacheTable
  import opened CacheSteps
  import opened CacheOwnership
  import opened CacheSafety
  import opened CacheGuarantees

  // All entries carry the hash of their key.

  ghost predicate Hashed(s: State) {
    forall e :: e in s.heap ==> s.heap[e].hash == s.hash(s.heap[e].key)
  }

  lemma HashedStep(s: State, a: Action)
    requires Hashed(s) && Enabled(s, a)
    ensures Hashed(Step(s, a)) && Step(s, a).hash == s.hash
  {
    hide Advance, Ready;
    if a.Run? {
      FewerEntries(s, a.t);
    }
  }

  lemma FewerEntries(s: State, t: nat)
    requires Ready(s, t)
    ensures Advance(s, t).hash == s.hash
    ensures forall e :: e in Advance(s, t).heap ==> e in s.heap && Advance(s, t).heap[e] == s.heap[e]
  {
    hide After, Without, Hits, First, AfterLock, AtEnd, LockFor, BucketOf;
  }

  lemma {:induction false} HashedRun(s: State, actions: seq<Action>)
    requires Hashed(s) && IsRun(s, actions)
    ensures Hashed(Reached(s, actions))
    decreases |actions|
  {
    hide Hashed, Step, Enabled;
    if actions == [] {
    } else {
      HashedStep(s, actions[0]);
      HashedRun(Step(s, actions[0]), actions[1..]);
    }
  }

  ghost predicate Good(s: State) {
    Inv(s) && Hashed(s)
  }

  lemma AllBuckets(s: State)
    requires Good(s)
    ensures |s.lists| == BUCKETS
  {
  }

  lemma ReachableIsGood(s: State)
    requires Reachable(s)
    ensures Good(s)
  {
    hide Inv;
    ReachableIsOk(s);
    var s0, actions :| Initial(s0) && IsRun(s0, actions) && Reached(s0, actions) == s;
    HashedRun(s0, actions);
  }

  // Runs of one thread.

  predicate Only(actions: seq<Action>, t: nat) {
    forall i :: 0 <= i < |actions| ==> actions[i] == Run(t)
  }

  /** A run of thread t alone, from where it is to the end of its call. */
  ghost predicate Ends(s: State, t: nat, actions: seq<Action>) {
    t < |s.pcs| && Only(actions, t) && IsRun(s, actions) && |Reached(s, actions).pcs| == |s.pcs|
    && Reached(s, actions).pcs[t] == Idle
  }

  lemma OneStep(s: State, t: nat, actions: seq<Action>)
    requires Ends(s, t, actions) && s.pcs[t] != Idle && Good(s)
    ensures actions != [] && Ready(s, t) && Good(Advance(s, t)) && Ends(Advance(s, t), t, actions[1..])
    ensures Reached(s, actions) == Reached(Advance(s, t), actions[1..])
    ensures Advance(s, t).hash == s.hash
  {
    hide Inv, Hashed, Advance, Ready;
    assert actions[0] == Run(t);
    EveryStep(s, Run(t));
    HashedStep(s, Run(t));
    PcsStay(s, t);
  }

  lemma PcsStay(s: State, t: nat)
    requires Ready(s, t)
    ensures |Advance(s, t).pcs| == |s.pcs|
  {
  }

  lemma IsOver(s: State, t: nat, actions: seq<Action>)
    requires Ends(s, t, actions) && s.pcs[t] == Idle
    ensures actions == [] && Reached(s, actions) == s
  {
  }

  // Positions in a list.

  function At(list: seq<Id>, j: nat): Option<Id> {
    if j < |list| then Some(list[j]) else None
  }

  lemma {:induction false} AfterAt(list: seq<Id>, j: nat)
    requires Distinct(list) && j < |list|
    ensures After(list, list[j]) == At(list, j + 1)
  {
    if j == 0 {
    } else {
      assert list[0] != list[j];
      AfterAt(list[1..], j - 1);
    }
  }

  lemma {:induction false} WithoutAt(list: seq<Id>, j: nat)
    requires Distinct(list) && j < |list|
    ensures Without(list, list[j]) == list[..j] + list[j + 1..]
  {
    if j == 0 {
    } else {
      var tail := list[1..];
      assert list[0] != list[j] && tail[j - 1] == list[j];
      assert Without(list, list[j]) == [list[0]] + Without(tail, list[j]);
      hide Without;
      WithoutAt(tail, j - 1);
      assert list[..j] == [list[0]] + tail[..j - 1] && list[j + 1..] == tail[j..];
    }
  }

  /** Thread t is searching, and looks at position j next. */
  ghost predicate Searches(s: State, t: nat, job: Job, j: nat, n: nat) {
    && t < |s.pcs| && |s.lists| == BUCKETS && BucketOf(job) < BUCKETS && j <= |s.lists[BucketOf(job)]|
    && s.pcs[t] == Scan(job, At(s.lists[BucketOf(job)], j), n)
  }

  lemma ListFacts(s: State, b: nat, j: nat)
    requires Good(s) && b < BUCKETS && j < |s.lists[b]|
    ensures Distinct(s.lists[b]) && s.lists[b][j] in s.heap
    ensures var n := s.heap[s.lists[b][j]]; n.hash == s.hash(n.key) && Bucket(n.hash) == b
  {
    hide LocksOk, Conserved;
    ListIsDistinct(s, b);
  }

  /** Where all that the search finds is compared: by its key alone. */
  lemma HitMeans(s: State, job: Job, c: Id)
    requires Hashed(s) && c in s.heap
    ensures (job.Get? || job.Del? || job.Has?) && job.h == s.hash(job.key) ==> (Hits(s, job, c) <==> s.heap[c].key == job.key)
    ensures job.Add? && job.e in s.heap && job.h == s.heap[job.e].hash ==>
              (Hits(s, job, c) <==> s.heap[c].key == s.heap[job.e].key)
    ensures job.Sweep? ==> (Hits(s, job, c) <==> exists i :: 0 <= i < |job.prefixes| && job.prefixes[i] <= s.heap[c].key)
  {
    if job.Sweep? {
      forall i | 0 <= i < |job.prefixes|
        ensures IsPrefix(job.prefixes[i], s.heap[c].key) <==> job.prefixes[i] <= s.heap[c].key
      {
      }
    }
  }

  // One turn of a search.

  /** What is stored: everything but who is where. */
  ghost predicate Stores(s: State, s2: State) {
    && s2.heap == s.heap && s2.timers == s.timers && s2.lists == s.lists
    && s2.added == s.added && s2.handed == s.handed && s2.freed == s.freed && s2.hash == s.hash
  }

  /** A turn that only looks. */
  lemma LookOn(s: State, t: nat, job: Job, j: nat, n: nat)
    requires Good(s) && Searches(s, t, job, j, n) && Ready(s, t) && j < |s.lists[BucketOf(job)]|
    requires Stops(job) && (Hits(s, job, s.lists[BucketOf(job)][j]) ==> !CanStop(s, s.lists[BucketOf(job)][j]))
    ensures Stores(s, Advance(s, t)) && Searches(Advance(s, t), t, job, j + 1, n)
  {
    hide Inv, Hashed, Hits, After;
    ListFacts(s, BucketOf(job), j);
    AfterAt(s.lists[BucketOf(job)], j);
  }

  /** The end of a search for something to stop. */
  lemma LookedAll(s: State, t: nat, job: Job, n: nat)
    requires BucketOf(job) < |s.lists| && Searches(s, t, job, |s.lists[BucketOf(job)]|, n) && Ready(s, t) && Stops(job)
    ensures Stores(s, Advance(s, t)) && Advance(s, t).pcs[t] == Release(job)
  {
  }

  lemma LockIsTaken(s: State, t: nat, job: Job)
    requires t < |s.pcs| && s.pcs[t] == Lock(job) && Stops(job) && Ready(s, t) && |s.lists| == BUCKETS
    ensures Stores(s, Advance(s, t)) && Searches(Advance(s, t), t, job, 0, 0)
  {
  }

  lemma LockIsGiven(s: State, t: nat, job: Job)
    requires t < |s.pcs| && s.pcs[t] == Release(job) && Ready(s, t)
    ensures Stores(s, Advance(s, t)) && Advance(s, t).pcs[t] == AfterRelease(job)
  {
  }

  lemma StopsIt(s: State, t: nat, job: Job, j: nat, n: nat)
    requires Good(s) && Searches(s, t, job, j, n) && Ready(s, t) && Stops(job) && j < |s.lists[BucketOf(job)]|
    requires Hits(s, job, s.lists[BucketOf(job)][j]) && CanStop(s, s.lists[BucketOf(job)][j])
    ensures var c, s2 := s.lists[BucketOf(job)][j], Advance(s, t);
            && Stores(s.(timers := s.timers - {c}), s2) && t < |s2.pcs|
            && s2.pcs[t] == Unlink(job, c, At(s.lists[BucketOf(job)], j + 1))
  {
    hide Inv, Hashed, Hits, After;
    ListFacts(s, BucketOf(job), j);
    AfterAt(s.lists[BucketOf(job)], j);
  }

  lemma UnlinksIt(s: State, t: nat, job: Job, j: nat)
    requires Ready(s, t) && |s.lists| == BUCKETS && BucketOf(job) < BUCKETS
    requires j < |s.lists[BucketOf(job)]| && Distinct(s.lists[BucketOf(job)])
    requires var list := s.lists[BucketOf(job)]; s.pcs[t] == Unlink(job, list[j], At(list, j + 1))
    ensures var list, s2 := s.lists[BucketOf(job)], Advance(s, t);
            && Stores(s.(lists := s.lists[BucketOf(job) := list[..j] + list[j + 1..]]), s2) && t < |s2.pcs|
            && s2.pcs[t] == Hold(job, list[j], At(list, j + 1))
  {
    hide Without;
    WithoutAt(s.lists[BucketOf(job)], j);
  }

  lemma LetsGo(s: State, t: nat, job: Job, e: Id, next: Option<Id>)
    requires Ready(s, t) && s.pcs[t] == Hold(job, e, next) && !job.Sweep?
    ensures Stores(s, Advance(s, t)) && t < |Advance(s, t).pcs| && Advance(s, t).pcs[t] == Loose(job, e)
  {
  }

  lemma Disposes(s: State, t: nat, job: Job, e: Id)
    requires Ready(s, t) && s.pcs[t] == Loose(job, e) && e in s.heap
    ensures var s2 := Advance(s, t);
            && s2.heap == s.heap - {e} && s2.timers == s.timers - {e} && s2.lists == s.lists && s2.added == s.added
            && s2.handed == s.handed + (if job.Get? then multiset{Keyed(job.key, s.heap[e].value)} else multiset{})
            && s2.freed
               == s.freed + (if job.Get? then multiset{} else multiset{Keyed(s.heap[e].key, s.heap[e].value)})
            && s2.hash == s.hash && t < |s2.pcs| && s2.pcs[t] == AfterLoose(job)
  {
  }

  lemma DisposesSwept(s: State, t: nat, job: Job, e: Id, next: Option<Id>)
    requires Ready(s, t) && s.pcs[t] == Hold(job, e, next) && job.Sweep? && e in s.heap
    ensures var s2 := Advance(s, t);
            && s2.heap == s.heap - {e} && s2.timers == s.timers - {e} && s2.lists == s.lists && s2.added == s.added
            && s2.handed == s.handed && s2.freed == s.freed + multiset{Keyed(s.heap[e].key, s.heap[e].value)}
            && s2.hash == s.hash && t < |s2.pcs| && s2.pcs[t] == Scan(job, next, 0)
  {
  }

  /** Everything without the entry at position j of a bucket. */
  ghost predicate Lost(s: State, s2: State, b: nat, j: nat)
    requires b < |s.lists| && j < |s.lists[b]|
  {
    var list := s.lists[b];
    && s2.heap == s.heap - {list[j]} && s2.timers == s.timers - {list[j]} && s2.added == s.added && s2.hash == s.hash
    && s2.lists == s.lists[b := list[..j] + list[j + 1..]]
  }

  /** pcache_get or pcache_del stops the timer that it looks at, and goes on until the entry is gone. */
  lemma TakeOne(s: State, t: nat, job: Job, j: nat, n: nat, actions: seq<Action>) returns (s2: State, rest: seq<Action>)
    requires Good(s) && Searches(s, t, job, j, n) && Ends(s, t, actions) && (job.Get? || job.Del?)
    requires j < |s.lists[BucketOf(job)]|
    requires Hits(s, job, s.lists[BucketOf(job)][j]) && CanStop(s, s.lists[BucketOf(job)][j])
    ensures Good(s2) && Ends(s2, t, rest) && Reached(s, actions) == Reached(s2, rest) && |rest| < |actions|
    ensures Lost(s, s2, BucketOf(job), j) && s2.pcs[t] == AfterLoose(job)
    ensures var c := s.lists[BucketOf(job)][j];
            && c in s.heap
            && s2.handed == s.handed + (if job.Get? then multiset{Keyed(job.key, s.heap[c].value)} else multiset{})
            && s2.freed
               == s.freed + (if job.Get? then multiset{} else multiset{Keyed(s.heap[c].key, s.heap[c].value)})
  {
    hide Good, Hits, CanStop, Advance, Ready, IsRun, Reached, Distinct, BucketOf, Ends;
    NotIdle(s, t, job, j, n);
    var b := BucketOf(job);
    var list := s.lists[b];
    ListFacts(s, b, j);
    OneStep(s, t, actions);
    StopsIt(s, t, job, j, n);
    var s1 := Advance(s, t);
    OneStep(s1, t, actions[1..]);
    UnlinksIt(s1, t, job, j);
    s2 := Advance(s1, t);
    OneStep(s2, t, actions[1..][1..]);
    LetsGo(s2, t, job, list[j], At(list, j + 1));
    var s3 := Advance(s2, t);
    rest := actions[1..][1..][1..];
    OneStep(s3, t, rest);
    Disposes(s3, t, job, list[j]);
    s2 := Advance(s3, t);
    rest := rest[1..];
    assert s.timers - {list[j]} - {list[j]} == s.timers - {list[j]};
  }

  lemma NotIdle(s: State, t: nat, job: Job, j: nat, n: nat)
    requires Searches(s, t, job, j, n)
    ensures t < |s.pcs| && s.pcs[t] != Idle && BucketOf(job) < |s.lists| == BUCKETS
  {
  }

  // pcache_get.

  /** An entry of the key whose timer can be stopped. */
  predicate Free(s: State, c: Id, key: string) {
    c in s.heap && s.heap[c].key == key && c in s.timers && s.timers[c] == Armed
  }

  predicate NewestFree(s: State, list: seq<Id>, key: string, i: nat) {
    i < |list| && Free(s, list[i], key) && forall k :: 0 <= k < i ==> !Free(s, list[k], key)
  }

  /** The newest one is handed out and gone, or nothing happens. */
  ghost predicate Got(s: State, s2: State, key: string, b: nat)
    requires b < |s.lists|
  {
    var list := s.lists[b];
    && (forall i: nat :: NewestFree(s, list, key, i) ==>
          Lost(s, s2, b, i) && s2.handed == s.handed + multiset{Keyed(key, s.heap[list[i]].value)} && s2.freed == s.freed)
    && ((forall i :: 0 <= i < |list| ==> !Free(s, list[i], key)) ==> Stores(s, s2))
  }

  lemma FreeIsHit(s: State, job: Job, c: Id)
    requires Good(s) && c in s.heap && (job.Get? || job.Del?) && job.h == s.hash(job.key)
    ensures Hits(s, job, c) && CanStop(s, c) <==> Free(s, c, job.key)
  {
    HitMeans(s, job, c);
  }

  lemma OnlyNewest(s: State, s2: State, key: string, b: nat, j: nat)
    requires b < |s.lists| && NewestFree(s, s.lists[b], key, j) && Lost(s, s2, b, j) && s2.freed == s.freed
    requires s2.handed == s.handed + multiset{Keyed(key, s.heap[s.lists[b][j]].value)}
    ensures Got(s, s2, key, b)
  {
    hide Lost, Free;
    forall i: nat | NewestFree(s, s.lists[b], key, i)
      ensures i == j
    {
    }
  }

  lemma NoneFree(s: State, s2: State, key: string, b: nat)
    requires b < |s.lists| && Stores(s, s2) && forall i :: 0 <= i < |s.lists[b]| ==> !Free(s, s.lists[b][i], key)
    ensures Got(s, s2, key, b)
  {
    hide Lost, Free;
  }

  lemma SameGot(s: State, s1: State, s2: State, key: string, b: nat)
    requires b < |s.lists| && Stores(s, s1) && Got(s1, s2, key, b)
    ensures Got(s, s2, key, b)
  {
    forall i: nat | NewestFree(s, s.lists[b], key, i)
      ensures NewestFree(s1, s1.lists[b], key, i)
    {
      assert forall c :: Free(s1, c, key) <==> Free(s, c, key);
    }
  }

  lemma NoFreeBefore(s: State, s1: State, list: seq<Id>, key: string, j: nat)
    requires Stores(s, s1) && j < |list| && !Free(s, list[j], key)
    requires forall i :: 0 <= i < j ==> !Free(s, list[i], key)
    ensures forall i :: 0 <= i < j + 1 ==> !Free(s1, list[i], key)
  {
  }

  lemma {:induction false} GetSearches(s: State, t: nat, job: Job, j: nat, actions: seq<Action>)
    requires job.Get? && job.h == s.hash(job.key) && Good(s) && Searches(s, t, job, j, 0) && Ends(s, t, actions)
    requires forall i :: 0 <= i < j ==> !Free(s, s.lists[BucketOf(job)][i], job.key)
    ensures |s.lists| == BUCKETS && BucketOf(job) < BUCKETS && Got(s, Reached(s, actions), job.key, BucketOf(job))
    decreases |actions|
  {
    hide Good, Free, Hits, CanStop, Advance, Ready, IsRun, Reached, BucketOf, Got, Lost, Only;
    NotIdle(s, t, job, j, 0);
    var b := BucketOf(job);
    var list := s.lists[b];
    OneStep(s, t, actions);
    var s1 := Advance(s, t);
    if j == |list| {
      LookedAll(s, t, job, 0);
      OneStep(s1, t, actions[1..]);
      LockIsGiven(s1, t, job);
      IsOver(Advance(s1, t), t, actions[1..][1..]);
      NoneFree(s, Reached(s, actions), job.key, b);
    } else {
      ListFacts(s, b, j);
      FreeIsHit(s, job, list[j]);
      if Free(s, list[j], job.key) {
        var s2, rest := TakeOne(s, t, job, j, 0, actions);
        IsOver(s2, t, rest);
        OnlyNewest(s, s2, job.key, b, j);
      } else {
        LookOn(s, t, job, j, 0);
        NoFreeBefore(s, s1, list, job.key, j);
        GetSearches(s1, t, job, j + 1, actions[1..]);
        SameGot(s, s1, Reached(s, actions), job.key, b);
      }
    }
  }

  /** A call of thread t, which then runs to its end alone. */
  ghost predicate Alone(s: State, t: nat, job: Job, actions: seq<Action>) {
    && t < |s.pcs| && actions != [] && actions[0] == Call(t, job) && Only(actions[1..], t)
    && IsRun(s, actions) && |Reached(s, actions).pcs| == |s.pcs| && Reached(s, actions).pcs[t] == Idle
  }

  lemma Begun(s: State, t: nat, job: Job, actions: seq<Action>) returns (s1: State, rest: seq<Action>)
    requires Good(s) && Alone(s, t, job, actions) && Stops(job)
    ensures Good(s1) && Stores(s, s1) && Searches(s1, t, job, 0, 0) && Ends(s1, t, rest)
    ensures Reached(s, actions) == Reached(s1, rest)
    ensures if job.Sweep? then job.b == 0 else job.h == s.hash(job.key)
  {
    hide Inv, Hashed, Advance, Ready;
    EveryStep(s, Call(t, job));
    HashedStep(s, Call(t, job));
    s1 := Step(s, Call(t, job));
    AllBuckets(s1);
    OneStep(s1, t, actions[1..]);
    LockIsTaken(s1, t, job);
    s1, rest := Advance(s1, t), actions[1..][1..];
  }

  /**
   * A pcache_get that runs alone hands out the newest entry of its key that can be stopped, wherever other calls stand:
   * i is its place in the bucket's list. The entry is gone, and nothing else changes.
   */
  lemma GetTakesNewest(s: State, t: nat, key: string, actions: seq<Action>, i: nat)
    requires Reachable(s) && Alone(s, t, Get(key, s.hash(key)), actions)
    requires Bucket(s.hash(key)) < |s.lists| && i < |s.lists[Bucket(s.hash(key))]|
    requires var c := s.lists[Bucket(s.hash(key))][i];
             c in s.heap && s.heap[c].key == key && c in s.timers && s.timers[c] == Armed
    requires forall k :: 0 <= k < i ==>
               var c := s.lists[Bucket(s.hash(key))][k];
               c in s.heap && s.heap[c].key == key && c in s.timers ==> s.timers[c] != Armed
    ensures var b := Bucket(s.hash(key));
            var list, s2 := s.lists[b], Reached(s, actions);
            && s2.handed == s.handed + multiset{Keyed(key, s.heap[list[i]].value)} && s2.freed == s.freed
            && s2.heap == s.heap - {list[i]} && s2.timers == s.timers - {list[i]}
            && s2.lists == s.lists[b := list[..i] + list[i + 1..]]
  {
    hide Good, Reachable, IsRun, Reached;
    ReachableIsGood(s);
    var job := Get(key, s.hash(key));
    var s1, rest := Begun(s, t, job, actions);
    GetSearches(s1, t, job, 0, rest);
    assert NewestFree(s1, s1.lists[Bucket(s.hash(key))], key, i);
  }

  /** And only if there is none does it hand out nothing. */
  lemma GetFindsNothing(s: State, t: nat, key: string, actions: seq<Action>)
    requires Reachable(s) && Alone(s, t, Get(key, s.hash(key)), actions)
    requires Bucket(s.hash(key)) < |s.lists|
    requires forall c :: c in s.lists[Bucket(s.hash(key))] && c in s.heap && s.heap[c].key == key && c in s.timers ==>
               s.timers[c] != Armed
    ensures var s2 := Reached(s, actions);
            && s2.handed == s.handed && s2.freed == s.freed && s2.heap == s.heap && s2.timers == s.timers
            && s2.lists == s.lists
  {
    hide Good, Reachable, IsRun, Reached;
    ReachableIsGood(s);
    var job := Get(key, s.hash(key));
    var s1, rest := Begun(s, t, job, actions);
    GetSearches(s1, t, job, 0, rest);
  }
}
