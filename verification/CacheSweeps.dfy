/** pcache_del and the sweeps of the racing cache, run to their end while all other threads stand still. */
module CacheSweeps {
  import opened CacheTable
  import opened CacheSteps
  import opened CacheOwnership
  import opened CacheSafety
  import opened CacheGuarantees
  import opened CacheAlone

  /** A list without the entries that are gone. */
  function Sifted(list: seq<Id>, gone: set<Id>): seq<Id> {
    if list == [] then [] else (if list[0] in gone then [] else [list[0]]) + Sifted(list[1..], gone)
  }

  lemma {:induction false} SiftedNone(list: seq<Id>)
    ensures Sifted(list, {}) == list
  {
    if list == [] {
    } else {
      SiftedNone(list[1..]);
      assert list == [list[0]] + list[1..];
    }
  }

  lemma {:induction false} SiftedOther(list: seq<Id>, gone: set<Id>, c: Id)
    requires c !in list
    ensures Sifted(list, gone - {c}) == Sifted(list, gone)
  {
    if list == [] {
    } else {
      SiftedOther(list[1..], gone, c);
    }
  }

  lemma {:induction false} SiftedWithout(list: seq<Id>, gone: set<Id>, j: nat)
    requires Distinct(list) && j < |list| && list[j] in gone
    ensures Sifted(list[..j] + list[j + 1..], gone - {list[j]}) == Sifted(list, gone)
  {
    hide Sifted, Distinct;
    var c, tail := list[j], list[1..];
    SiftedFirst(list, gone);
    FirstApart(list, j);
    if j == 0 {
      SiftedOther(tail, gone, c);
    } else {
      SiftedWithout(tail, gone, j - 1);
      SiftedFirst(list[..j] + list[j + 1..], gone - {c});
    }
  }

  lemma FirstApart(list: seq<Id>, j: nat)
    requires Distinct(list) && j < |list|
    ensures Distinct(list[1..]) && list[0] !in list[1..]
    ensures j == 0 ==> list[..j] + list[j + 1..] == list[1..]
    ensures var less, tail := list[..j] + list[j + 1..], list[1..];
            j > 0 ==> list[0] != list[j] && tail[j - 1] == list[j] && less[0] == list[0]
                      && less[1..] == tail[..j - 1] + tail[j - 1 + 1..]
  {
  }

  lemma SiftedFirst(list: seq<Id>, gone: set<Id>)
    requires list != []
    ensures Sifted(list, gone) == (if list[0] in gone then [] else [list[0]]) + Sifted(list[1..], gone)
    ensures list[0] in gone ==> Sifted(list, gone) == Sifted(list[1..], gone)
  {
  }

  /** All entries in a set are gone, and nothing was handed out. */
  ghost predicate Gone(s: State, s2: State, gone: set<Id>) {
    && s2.heap == s.heap - gone && s2.timers == s.timers - gone && |s2.lists| == |s.lists|
    && (forall b :: 0 <= b < |s.lists| ==> s2.lists[b] == Sifted(s.lists[b], gone))
    && s2.handed == s.handed && s2.added == s.added
  }

  lemma NothingGone(s: State, s2: State)
    requires Stores(s, s2)
    ensures Gone(s, s2, {})
  {
    forall b | 0 <= b < |s.lists|
      ensures s2.lists[b] == Sifted(s.lists[b], {})
    {
      SiftedNone(s.lists[b]);
    }
  }

  lemma SameGone(s: State, s1: State, s2: State, gone: set<Id>)
    requires Stores(s, s1) && Gone(s1, s2, gone)
    ensures Gone(s, s2, gone)
  {
    hide Sifted;
  }

  lemma OneMoreGone(s: State, s1: State, s2: State, b: nat, j: nat, gone: set<Id>)
    requires Good(s) && b < |s.lists| == BUCKETS && j < |s.lists[b]| && s.lists[b][j] in gone
    requires Lost(s, s1, b, j) && s1.handed == s.handed && Gone(s1, s2, gone - {s.lists[b][j]})
    ensures Gone(s, s2, gone)
  {
    hide Sifted, Inv;
    var c := s.lists[b][j];
    ListFacts(s, b, j);
    forall d | 0 <= d < |s.lists|
      ensures s2.lists[d] == Sifted(s.lists[d], gone)
    {
      if d == b {
        SiftedWithout(s.lists[b], gone, j);
      } else {
        InOneList(s, b, d, c);
        SiftedOther(s.lists[d], gone, c);
      }
    }
    assert s.heap - {c} - (gone - {c}) == s.heap - gone;
    assert s.timers - {c} - (gone - {c}) == s.timers - gone;
  }

  lemma InOneList(s: State, b: nat, d: nat, c: Id)
    requires Good(s) && b < BUCKETS && d < BUCKETS && b != d && |s.lists| == BUCKETS && c in s.lists[b]
    ensures c !in s.lists[d]
  {
    hide LocksOk, Conserved;
    ListIsDistinct(s, b);
    ListIsDistinct(s, d);
  }

  /** What a job that deletes or sweeps is going to free: its entries that can be stopped, from its bucket on. */
  ghost function Doomed(s: State, job: Job): set<Id> {
    set c | c in s.timers && s.timers[c] == Armed && c in s.heap && Serves(s.heap[c], job)
            && (job.Sweep? ==> Bucket(s.heap[c].hash) >= job.b)
  }

  /** The job is under way for its own key or bucket. */
  ghost predicate Underway(s: State, job: Job) {
    && (job.Del? || job.Sweep?) && BucketOf(job) < BUCKETS && (job.Del? ==> job.h == s.hash(job.key))
  }

  lemma DoomedIsHit(s: State, job: Job, j: nat)
    requires Good(s) && Underway(s, job) && |s.lists| == BUCKETS && j < |s.lists[BucketOf(job)]|
    ensures var c := s.lists[BucketOf(job)][j]; Hits(s, job, c) && CanStop(s, c) <==> c in Doomed(s, job)
  {
    hide Inv;
    ListFacts(s, BucketOf(job), j);
    HitMeans(s, job, s.lists[BucketOf(job)][j]);
  }

  /** What can be stopped is in its list. */
  lemma DoomedIsListed(s: State, c: Id)
    requires Good(s) && c in s.timers && s.timers[c] == Armed
    ensures c in s.heap && |s.lists| == BUCKETS && c in s.lists[Bucket(s.heap[c].hash)]
  {
    hide LocksOk, Conserved, Claim;
    NobodyClaims(s, |s.pcs|, c);
  }

  /** After the last entry of its bucket, the job has only later buckets to go. */
  lemma BucketIsDone(s: State, job: Job)
    requires Good(s) && Underway(s, job) && |s.lists| == BUCKETS
    requires forall i :: 0 <= i < |s.lists[BucketOf(job)]| ==> s.lists[BucketOf(job)][i] !in Doomed(s, job)
    ensures job.Del? || job.b + 1 == BUCKETS ==> Doomed(s, job) == {}
    ensures job.Sweep? ==> Doomed(s, job) == Doomed(s, job.(b := job.b + 1))
  {
    hide Inv, Serves;
    forall c | c in Doomed(s, job)
      ensures job.Sweep? && Bucket(s.heap[c].hash) > job.b
    {
      DoomedIsListed(s, c);
      DoomedKey(s, job, c);
    }
    if job.Sweep? {
      SameServes(s, job);
    }
  }

  lemma DoomedKey(s: State, job: Job, c: Id)
    requires Hashed(s) && Underway(s, job) && c in Doomed(s, job)
    ensures job.Del? ==> Bucket(s.heap[c].hash) == BucketOf(job)
  {
  }

  lemma SameServes(s: State, job: Job)
    requires job.Sweep?
    ensures forall n :: Serves(n, job.(b := job.b + 1)) <==> Serves(n, job)
  {
  }

  /** With one of them gone, the others are still to go. */
  lemma DoomedLess(s: State, s2: State, job: Job, b: nat, j: nat)
    requires b < |s.lists| && j < |s.lists[b]| && Lost(s, s2, b, j) && s.lists[b][j] in Doomed(s, job)
    ensures Doomed(s2, job) == Doomed(s, job) - {s.lists[b][j]}
  {
    hide Serves;
  }

  lemma DoomedSame(s: State, s2: State, job: Job)
    requires Stores(s, s2)
    ensures Doomed(s2, job) == Doomed(s, job)
  {
    hide Serves;
  }

  /** A sweep stops the timer that it looks at, frees the entry, and stays at its position. */
  lemma SweepsOne(s: State, t: nat, job: Job, j: nat, actions: seq<Action>) returns (s2: State, rest: seq<Action>)
    requires Good(s) && Searches(s, t, job, j, 0) && Ends(s, t, actions) && job.Sweep?
    requires j < |s.lists[BucketOf(job)]|
    requires Hits(s, job, s.lists[BucketOf(job)][j]) && CanStop(s, s.lists[BucketOf(job)][j])
    ensures Good(s2) && Ends(s2, t, rest) && Reached(s, actions) == Reached(s2, rest) && |rest| < |actions|
    ensures Lost(s, s2, BucketOf(job), j) && s2.handed == s.handed && Searches(s2, t, job, j, 0)
  {
    hide Good, Hits, CanStop, Advance, Ready, IsRun, Reached, Distinct, BucketOf, Ends;
    NotIdle(s, t, job, j, 0);
    var b := BucketOf(job);
    var list := s.lists[b];
    ListFacts(s, b, j);
    OneStep(s, t, actions);
    StopsIt(s, t, job, j, 0);
    var s1 := Advance(s, t);
    OneStep(s1, t, actions[1..]);
    UnlinksIt(s1, t, job, j);
    s2 := Advance(s1, t);
    rest := actions[1..][1..];
    OneStep(s2, t, rest);
    DisposesSwept(s2, t, job, list[j], At(list, j + 1));
    s2 := Advance(s2, t);
    rest := rest[1..];
    assert s.timers - {list[j]} - {list[j]} == s.timers - {list[j]};
    assert At(list[..j] + list[j + 1..], j) == At(list, j + 1);
  }

  lemma NoneBefore(s: State, s1: State, job: Job, list: seq<Id>, j: nat)
    requires Stores(s, s1) && j < |list| && list[j] !in Doomed(s, job)
    requires forall i :: 0 <= i < j ==> list[i] !in Doomed(s, job)
    ensures forall i :: 0 <= i < j + 1 ==> list[i] !in Doomed(s1, job)
  {
    hide Doomed, Stores;
    DoomedSame(s, s1, job);
  }

  lemma StillBefore(s: State, s1: State, job: Job, b: nat, j: nat)
    requires b < |s.lists| && j < |s.lists[b]| && Lost(s, s1, b, j) && s.lists[b][j] in Doomed(s, job)
    requires forall i :: 0 <= i < j ==> s.lists[b][i] !in Doomed(s, job)
    ensures |s1.lists| == |s.lists| && j <= |s1.lists[b]| && forall i :: 0 <= i < j ==> s1.lists[b][i] !in Doomed(s1, job)
  {
    hide Doomed;
    DoomedLess(s, s1, job, b, j);
  }

  /** A search of pcache_del or of a sweep, from position j of its bucket to the end of the call. */
  lemma {:induction false} Sweeps(s: State, t: nat, job: Job, j: nat, actions: seq<Action>)
    requires Underway(s, job) && Good(s) && Searches(s, t, job, j, 0) && Ends(s, t, actions)
    requires forall i :: 0 <= i < j ==> s.lists[BucketOf(job)][i] !in Doomed(s, job)
    ensures Gone(s, Reached(s, actions), Doomed(s, job))
    decreases |actions|
  {
    hide Good, Hits, CanStop, Advance, Ready, IsRun, Reached, BucketOf, Lost, Only, Doomed, Gone, Stores, Serves;
    NotIdle(s, t, job, j, 0);
    var b := BucketOf(job);
    var list := s.lists[b];
    if j == |list| {
      SweepsOn(s, t, job, actions);
    } else {
      DoomedIsHit(s, job, j);
      if list[j] in Doomed(s, job) {
        SweepsHit(s, t, job, j, actions);
      } else {
        OneStep(s, t, actions);
        LookOn(s, t, job, j, 0);
        var s1 := Advance(s, t);
        NoneBefore(s, s1, job, list, j);
        StillUnderway(s, s1, job);
        DoomedSame(s, s1, job);
        SameBucket(s, s1, job);
        Sweeps(s1, t, job, j + 1, actions[1..]);
        SameGone(s, s1, Reached(s, actions), Doomed(s, job));
      }
    }
  }

  lemma StillUnderway(s: State, s1: State, job: Job)
    requires Underway(s, job) && s1.hash == s.hash
    ensures Underway(s1, job)
  {
  }

  lemma SameBucket(s: State, s1: State, job: Job)
    requires Stores(s, s1)
    ensures s1.lists == s.lists && s1.hash == s.hash
  {
  }

  /** The end of a bucket. */
  lemma {:induction false} SweepsOn(s: State, t: nat, job: Job, actions: seq<Action>)
    requires Underway(s, job) && Good(s) && BucketOf(job) < |s.lists| && Ends(s, t, actions)
    requires Searches(s, t, job, |s.lists[BucketOf(job)]|, 0)
    requires forall i :: 0 <= i < |s.lists[BucketOf(job)]| ==> s.lists[BucketOf(job)][i] !in Doomed(s, job)
    ensures Gone(s, Reached(s, actions), Doomed(s, job))
    decreases |actions|, 0
  {
    hide Good, Advance, Ready, IsRun, Reached, Only, Doomed, Gone, Serves;
    BucketIsDone(s, job);
    OneStep(s, t, actions);
    LookedAll(s, t, job, 0);
    var s1 := Advance(s, t);
    OneStep(s1, t, actions[1..]);
    LockIsGiven(s1, t, job);
    var s2, rest := Advance(s1, t), actions[1..][1..];
    if job.Sweep? && job.b + 1 < BUCKETS {
      var next := job.(b := job.b + 1);
      OneStep(s2, t, rest);
      LockIsTaken(s2, t, next);
      var s3 := Advance(s2, t);
      Sweeps(s3, t, next, 0, rest[1..]);
      DoomedSame(s, s3, next);
      SameGone(s, s3, Reached(s, actions), Doomed(s, job));
    } else {
      IsOver(s2, t, rest);
      NothingGone(s, s2);
    }
  }

  /** One entry is freed; pcache_del then starts over. */
  lemma {:induction false} SweepsHit(s: State, t: nat, job: Job, j: nat, actions: seq<Action>)
    requires Underway(s, job) && Good(s) && Searches(s, t, job, j, 0) && Ends(s, t, actions)
    requires j < |s.lists[BucketOf(job)]| && s.lists[BucketOf(job)][j] in Doomed(s, job)
    requires forall i :: 0 <= i < j ==> s.lists[BucketOf(job)][i] !in Doomed(s, job)
    ensures Gone(s, Reached(s, actions), Doomed(s, job))
    decreases |actions|, 0
  {
    hide Good, Hits, CanStop, Advance, Ready, IsRun, Reached, Only, Doomed, Gone, Serves;
    DoomedIsHit(s, job, j);
    var b, c := BucketOf(job), s.lists[BucketOf(job)][j];
    var s2, rest;
    if job.Sweep? {
      s2, rest := SweepsOne(s, t, job, j, actions);
      DoomedLess(s, s2, job, b, j);
      StillBefore(s, s2, job, b, j);
      Sweeps(s2, t, job, j, rest);
    } else {
      s2, rest := TakeOne(s, t, job, j, 0, actions);
      DoomedLess(s, s2, job, b, j);
      OneStep(s2, t, rest);
      LockIsTaken(s2, t, job);
      var s3 := Advance(s2, t);
      Sweeps(s3, t, job, 0, rest[1..]);
      DoomedSame(s2, s3, job);
      SameGone(s2, s3, Reached(s3, rest[1..]), Doomed(s2, job));
    }
    OneMoreGone(s, s2, Reached(s, actions), b, j, Doomed(s, job));
  }

  /** pcache_del alone: exactly the entries of its key that can be stopped go, and nothing is handed out. */
  lemma DelFreesItsKey(s: State, t: nat, key: string, actions: seq<Action>, gone: set<Id>)
    requires Reachable(s) && Alone(s, t, Del(key, s.hash(key)), actions)
    requires forall c :: c in gone <==> c in s.timers && s.timers[c] == Armed && c in s.heap && s.heap[c].key == key
    ensures var s2 := Reached(s, actions);
            && s2.heap == s.heap - gone && s2.timers == s.timers - gone && s2.handed == s.handed
            && |s2.lists| == |s.lists| && (forall b :: 0 <= b < |s.lists| ==> s2.lists[b] == Sifted(s.lists[b], gone))
            && s2.freed + Objects(s2.heap) == s.freed + Objects(s.heap)
  {
    hide Good, Reachable, IsRun, Reached, Sifted, Objects;
    var job := Del(key, s.hash(key));
    SweepsAll(s, t, job, actions);
    assert Doomed(s, job) == gone;
  }

  /** A sweep alone: exactly the entries whose keys one of the prefixes starts, and that can be stopped, go. */
  lemma SweepFreesItsPrefixes(s: State, t: nat, prefixes: seq<string>, actions: seq<Action>, gone: set<Id>)
    requires Reachable(s) && Alone(s, t, Sweep(prefixes, 0), actions)
    requires forall c :: c in gone <==> c in s.timers && s.timers[c] == Armed && c in s.heap
                                        && exists i :: 0 <= i < |prefixes| && prefixes[i] <= s.heap[c].key
    ensures var s2 := Reached(s, actions);
            && s2.heap == s.heap - gone && s2.timers == s.timers - gone && s2.handed == s.handed
            && |s2.lists| == |s.lists| && (forall b :: 0 <= b < |s.lists| ==> s2.lists[b] == Sifted(s.lists[b], gone))
            && s2.freed + Objects(s2.heap) == s.freed + Objects(s.heap)
  {
    hide Good, Reachable, IsRun, Reached, Sifted, Objects;
    var job := Sweep(prefixes, 0);
    SweepsAll(s, t, job, actions);
    assert Doomed(s, job) == gone;
  }

  lemma SweepsAll(s: State, t: nat, job: Job, actions: seq<Action>)
    requires Reachable(s) && Alone(s, t, job, actions) && (job.Del? || job.Sweep?)
    requires if job.Sweep? then job.b == 0 else job.h == s.hash(job.key)
    ensures var s2 := Reached(s, actions);
            Gone(s, s2, Doomed(s, job)) && s2.freed + Objects(s2.heap) == s.freed + Objects(s.heap)
  {
    hide Good, Reachable, IsRun, Reached, Doomed, Gone, Objects;
    ReachableIsGood(s);
    var s1, rest := Begun(s, t, job, actions);
    Sweeps(s1, t, job, 0, rest);
    DoomedSame(s, s1, job);
    SameGone(s, s1, Reached(s, actions), Doomed(s, job));
    StaysGood(s, actions);
    Balanced(s, Reached(s, actions), Doomed(s, job));
  }

  lemma StaysGood(s: State, actions: seq<Action>)
    requires Good(s) && IsRun(s, actions)
    ensures Good(Reached(s, actions))
  {
    hide Inv, Hashed;
    EveryRunFrom(s, actions);
    HashedRun(s, actions);
  }

  /** What is gone was freed, since nothing was handed out. */
  lemma Balanced(s: State, s2: State, gone: set<Id>)
    requires Good(s) && Good(s2) && Gone(s, s2, gone)
    ensures s2.freed + Objects(s2.heap) == s.freed + Objects(s.heap)
  {
    hide Objects, LocksOk, Structure, Sifted;
    var now, was := s2.freed + Objects(s2.heap), s.freed + Objects(s.heap);
    assert now + s.handed == s2.added == s.added == was + s.handed;
    Cancelled(now, was, s.handed);
  }

  lemma Cancelled(a: multiset<Keyed>, b: multiset<Keyed>, c: multiset<Keyed>)
    requires a + c == b + c
    ensures a == b
  {
    forall x
      ensures a[x] == b[x]
    {
      assert (a + c)[x] == (b + c)[x];
    }
  }
}
