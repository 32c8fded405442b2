/** pcache_has, pcache_add and the timer callback of the racing cache, run to their end alone. */
module CacheAdds {
  import opened Options
  import opened CacheTable
  import opened CacheSteps
  import opened CacheOwnership
  import opened CacheSafety
  import opened CacheGuarantees
  import opened CacheAlone
  import opened CacheSweeps

  // pcache_has.

  /** A run of thread t alone, to where it gives up the lock with its result. */
  ghost predicate Tells(s: State, t: nat, actions: seq<Action>) {
    t < |s.pcs| && Only(actions, t) && IsRun(s, actions) && |Reached(s, actions).pcs| == |s.pcs|
    && Reached(s, actions).pcs[t].Release?
  }

  lemma OneStepTells(s: State, t: nat, actions: seq<Action>)
    requires Tells(s, t, actions) && s.pcs[t] != Idle && !s.pcs[t].Release? && Good(s)
    ensures actions != [] && Ready(s, t) && Good(Advance(s, t)) && Tells(Advance(s, t), t, actions[1..])
    ensures Reached(s, actions) == Reached(Advance(s, t), actions[1..])
    ensures Advance(s, t).hash == s.hash
  {
    hide Inv, Hashed, Advance, Ready;
    assert actions[0] == Run(t);
    EveryStep(s, Run(t));
    HashedStep(s, Run(t));
    PcsStay(s, t);
  }

  lemma HasTold(s: State, t: nat, actions: seq<Action>)
    requires Tells(s, t, actions) && s.pcs[t].Release? && s.pcs[t].job.Has?
    ensures Reached(s, actions) == s
  {
    if actions != [] {
      AfterTelling(s, t, actions);
    }
  }

  lemma AfterTelling(s: State, t: nat, actions: seq<Action>)
    requires t < |s.pcs| && s.pcs[t].Release? && s.pcs[t].job.Has?
    requires actions != [] && Only(actions, t) && IsRun(s, actions)
    ensures |Reached(s, actions).pcs| == |s.pcs| && Reached(s, actions).pcs[t] == Idle
  {
    assert actions[0] == Run(t);
    var s1 := Advance(s, t);
    IsStopped(s1, t, actions[1..]);
  }

  lemma IsStopped(s: State, t: nat, actions: seq<Action>)
    requires t < |s.pcs| && s.pcs[t] == Idle && Only(actions, t) && IsRun(s, actions)
    ensures Reached(s, actions) == s
  {
  }

  predicate IsOf(s: State, c: Id, key: string) {
    c in s.heap && s.heap[c].key == key
  }

  lemma HasStep(s: State, t: nat, job: Job, j: nat)
    requires Good(s) && Searches(s, t, job, j, 0) && Ready(s, t) && job.Has? && job.h == s.hash(job.key)
    ensures var list, s2 := s.lists[BucketOf(job)], Advance(s, t);
            if j == |list| then s2.pcs[t] == Release(job)
            else if IsOf(s, list[j], job.key) then s2.pcs[t] == Release(job.(found := true))
            else Searches(s2, t, job, j + 1, 0) && Stores(s, s2)
  {
    hide Inv, Hashed, Hits, After;
    var list := s.lists[BucketOf(job)];
    if j < |list| {
      ListFacts(s, BucketOf(job), j);
      AfterAt(list, j);
      HitMeans(s, job, list[j]);
    }
  }

  lemma {:induction false} HasSearches(s: State, t: nat, job: Job, j: nat, actions: seq<Action>)
    requires job.Has? && !job.found && job.h == s.hash(job.key) && Good(s) && Searches(s, t, job, j, 0)
    requires Tells(s, t, actions) && forall i :: 0 <= i < j ==> !IsOf(s, s.lists[BucketOf(job)][i], job.key)
    ensures var told := Reached(s, actions).pcs[t].job;
            told.Has? && (told.found <==> exists c :: c in s.lists[BucketOf(job)] && IsOf(s, c, job.key))
    decreases |actions|
  {
    hide Good, IsOf, Hits, Advance, Ready, IsRun, Reached, BucketOf, Only;
    NotIdle(s, t, job, j, 0);
    var list := s.lists[BucketOf(job)];
    OneStepTells(s, t, actions);
    HasStep(s, t, job, j);
    var s1 := Advance(s, t);
    if j == |list| || IsOf(s, list[j], job.key) {
      HasTold(s1, t, actions[1..]);
      assert j < |list| ==> list[j] in list;
    } else {
      assert forall c :: IsOf(s1, c, job.key) <==> IsOf(s, c, job.key) by { SameKeys(s, s1, job.key); }
      HasSearches(s1, t, job, j + 1, actions[1..]);
    }
  }

  lemma SameKeys(s: State, s1: State, key: string)
    requires Stores(s, s1)
    ensures forall c :: IsOf(s1, c, key) <==> IsOf(s, c, key)
  {
  }

  /** pcache_has alone: true exactly if the bucket holds an entry of the key, whatever its timer is doing. */
  lemma HasTellsTruth(s: State, t: nat, key: string, actions: seq<Action>)
    requires Reachable(s) && t < |s.pcs| && actions != [] && actions[0] == Call(t, Has(key, s.hash(key), false))
    requires Only(actions[1..], t) && IsRun(s, actions)
    requires |Reached(s, actions).pcs| == |s.pcs| && Reached(s, actions).pcs[t].Release?
    ensures Bucket(s.hash(key)) < |s.lists| && Reached(s, actions).pcs[t].job.Has?
    ensures Reached(s, actions).pcs[t].job.found
       <==> exists c :: c in s.lists[Bucket(s.hash(key))] && c in s.heap && s.heap[c].key == key
  {
    hide Inv, Hashed, Advance, Ready, Reachable;
    ReachableIsGood(s);
    var job := Has(key, s.hash(key), false);
    EveryStep(s, Call(t, job));
    HashedStep(s, Call(t, job));
    var s1 := Step(s, Call(t, job));
    AllBuckets(s1);
    OneStepTells(s1, t, actions[1..]);
    HasLocks(s1, t, job);
    var s2 := Advance(s1, t);
    HasSearches(s2, t, job, 0, actions[1..][1..]);
    SameKeys(s, s2, key);
    assert forall c :: IsOf(s2, c, key) <==> c in s.heap && s.heap[c].key == key;
  }

  lemma HasLocks(s: State, t: nat, job: Job)
    requires t < |s.pcs| && s.pcs[t] == Lock(job) && job.Has? && Ready(s, t) && |s.lists| == BUCKETS
    ensures Stores(s, Advance(s, t)) && Searches(Advance(s, t), t, job, 0, 0)
  {
  }

  // pcache_add, and the timer callback.

  /** How many entries of a list have the key. */
  function HowMany(s: State, list: seq<Id>, key: string): nat {
    if list == [] then 0
    else HowMany(s, list[..|list| - 1], key)
         + if list[|list| - 1] in s.heap && s.heap[list[|list| - 1]].key == key then 1 else 0
  }

  lemma {:induction false} HowManyGrows(s: State, list: seq<Id>, key: string, j: nat)
    requires j <= |list|
    ensures HowMany(s, list[..j], key) <= HowMany(s, list, key)
    decreases |list|
  {
    if j == |list| {
      assert list[..j] == list;
    } else {
      HowManyGrows(s, list[..|list| - 1], key, j);
      assert list[..|list| - 1][..j] == list[..j];
    }
  }

  lemma {:induction false} HowManySame(s: State, s1: State, list: seq<Id>, key: string)
    requires forall c :: c in list ==> c in s.heap && c in s1.heap && s1.heap[c] == s.heap[c]
    ensures HowMany(s1, list, key) == HowMany(s, list, key)
  {
    if list == [] {
    } else {
      assert list[|list| - 1] in list;
      HowManySame(s, s1, list[..|list| - 1], key);
    }
  }

  /** A new entry, and how far its call has come; its key and its list. */
  ghost predicate Adds(s: State, job: Job) {
    && job.Add? && BucketOf(job) < |s.lists| == BUCKETS && job.e in s.heap && s.heap[job.e].hash == job.h
  }

  lemma CountStep(s: State, t: nat, job: Job, j: nat, n: nat)
    requires Good(s) && Adds(s, job) && Searches(s, t, job, j, n) && Ready(s, t)
    ensures var list, key, s2 := s.lists[BucketOf(job)], s.heap[job.e].key, Advance(s, t);
            && Stores(s, s2) && t < |s2.pcs|
            && if j == |list| then s2.pcs[t] == Link(job)
               else if !IsOf(s, list[j], key) then Searches(s2, t, job, j + 1, n)
               else if n + 1 == job.maxkeys then s2.pcs[t] == Hold(job, job.e, None)
               else Searches(s2, t, job, j + 1, n + 1)
  {
    hide Inv, Hashed, Hits, After;
    var list := s.lists[BucketOf(job)];
    if j < |list| {
      ListFacts(s, BucketOf(job), j);
      AfterAt(list, j);
      HitMeans(s, job, list[j]);
    }
  }

  /** The entry stays, as the first of its list and with its timer set, or it is freed. */
  ghost predicate Put(s: State, s2: State, job: Job, full: bool)
    requires Adds(s, job)
  {
    var b, e := BucketOf(job), job.e;
    && s2.handed == s.handed && s2.added == s.added
    && if full then
         && s2.heap == s.heap - {e} && s2.timers == s.timers - {e} && s2.lists == s.lists
         && s2.freed == s.freed + multiset{Keyed(s.heap[e].key, s.heap[e].value)}
       else
         && s2.heap == s.heap && s2.timers == s.timers[e := Armed] && s2.freed == s.freed
         && s2.lists == s.lists[b := [e] + s.lists[b]]
  }

  lemma SamePut(s: State, s1: State, s2: State, job: Job, full: bool)
    requires Adds(s, job) && Stores(s, s1)
    ensures Adds(s1, job) && (Put(s1, s2, job, full) ==> Put(s, s2, job, full))
  {
  }

  lemma AddLinks(s: State, t: nat, job: Job, actions: seq<Action>)
    requires Good(s) && Adds(s, job) && t < |s.pcs| && s.pcs[t] == Link(job) && Ends(s, t, actions)
    ensures Put(s, Reached(s, actions), job, false)
  {
    hide Good, Ready, IsRun, Reached, Only;
    OneStep(s, t, actions);
    var s1 := Advance(s, t);
    OneStep(s1, t, actions[1..]);
    var s2 := Advance(s1, t);
    OneStep(s2, t, actions[1..][1..]);
    var s3 := Advance(s2, t);
    IsOver(s3, t, actions[1..][1..][1..]);
  }

  lemma AddIsFreed(s: State, t: nat, job: Job, actions: seq<Action>)
    requires Good(s) && Adds(s, job) && t < |s.pcs| && s.pcs[t] == Hold(job, job.e, None) && Ends(s, t, actions)
    ensures Put(s, Reached(s, actions), job, true)
  {
    hide Good, Ready, IsRun, Reached, Only, Advance;
    OneStep(s, t, actions);
    LetsGo(s, t, job, job.e, None);
    var s1 := Advance(s, t);
    OneStep(s1, t, actions[1..]);
    Disposes(s1, t, job, job.e);
    IsOver(Advance(s1, t), t, actions[1..][1..]);
  }

  lemma {:induction false} AddSearches(s: State, t: nat, job: Job, j: nat, n: nat, actions: seq<Action>)
    requires Good(s) && Adds(s, job) && Searches(s, t, job, j, n) && Ends(s, t, actions)
    requires n == HowMany(s, s.lists[BucketOf(job)][..j], s.heap[job.e].key) && n < job.maxkeys
    ensures Put(s, Reached(s, actions), job, HowMany(s, s.lists[BucketOf(job)], s.heap[job.e].key) >= job.maxkeys)
    decreases |actions|
  {
    hide Good, Hits, Advance, Ready, IsRun, Reached, BucketOf, Only, Put, HowMany;
    NotIdle(s, t, job, j, n);
    var list, key := s.lists[BucketOf(job)], s.heap[job.e].key;
    OneStep(s, t, actions);
    CountStep(s, t, job, j, n);
    var s1 := Advance(s, t);
    SamePut(s, s1, Reached(s, actions), job, HowMany(s, list, key) >= job.maxkeys);
    if j == |list| {
      assert list[..j] == list;
      AddLinks(s1, t, job, actions[1..]);
    } else {
      OneMoreCounted(s, list, key, j);
      ListIsThere(s, BucketOf(job));
      HowManySame(s, s1, list, key);
      HowManySame(s, s1, list[..j + 1], key);
      if IsOf(s, list[j], key) && n + 1 == job.maxkeys {
        HowManyGrows(s, list, key, j + 1);
        AddIsFreed(s1, t, job, actions[1..]);
      } else {
        AddSearches(s1, t, job, j + 1, HowMany(s, list[..j + 1], key), actions[1..]);
      }
    }
  }

  lemma OneMoreCounted(s: State, list: seq<Id>, key: string, j: nat)
    requires j < |list|
    ensures HowMany(s, list[..j + 1], key) == HowMany(s, list[..j], key) + if IsOf(s, list[j], key) then 1 else 0
  {
    assert list[..j + 1][..j] == list[..j];
  }

  lemma ListIsThere(s: State, b: nat)
    requires Good(s) && b < |s.lists| == BUCKETS
    ensures forall c :: c in s.lists[b] ==> c in s.heap
  {
    hide LocksOk, Conserved;
    ListIsDistinct(s, b);
  }

  /** A call of pcache_add by thread t, which then runs to its end alone. */
  ghost predicate AddsAlone(s: State, t: nat, e: Id, node: Node, maxkeys: nat, actions: seq<Action>) {
    && t < |s.pcs| && actions != [] && actions[0] == CallAdd(t, e, node, maxkeys) && Only(actions[1..], t)
    && IsRun(s, actions) && |Reached(s, actions).pcs| == |s.pcs| && Reached(s, actions).pcs[t] == Idle
  }

  /** pcache_add alone: freed at once if the key has maxkeys entries, and otherwise the newest entry of its bucket. */
  lemma AddKeepsOrFrees(s: State, t: nat, e: Id, node: Node, maxkeys: nat, actions: seq<Action>)
    requires Reachable(s) && AddsAlone(s, t, e, node, maxkeys, actions)
    ensures Bucket(node.hash) < |s.lists|
    ensures var b, s2 := Bucket(node.hash), Reached(s, actions);
            && s2.handed == s.handed && s2.added == s.added + multiset{Keyed(node.key, node.value)}
            && if maxkeys != 0 && HowMany(s, s.lists[b], node.key) >= maxkeys then
                 && s2.heap == s.heap && s2.timers == s.timers && s2.lists == s.lists
                 && s2.freed == s.freed + multiset{Keyed(node.key, node.value)}
               else
                 && s2.heap == s.heap[e := node] && s2.timers == s.timers[e := Armed] && s2.freed == s.freed
                 && s2.lists == s.lists[b := [e] + s.lists[b]]
  {
    hide Inv, Hashed, Advance, Ready, Reachable, HowMany;
    ReachableIsGood(s);
    AllBuckets(s);
    var a := CallAdd(t, e, node, maxkeys);
    EveryStep(s, a);
    HashedStep(s, a);
    FreshAddress(s, e);
    var s1 := Step(s, a);
    var job, b := Add(e, node.hash, maxkeys), Bucket(node.hash);
    OneStep(s1, t, actions[1..]);
    AddLocks(s1, t, job);
    var s2 := Advance(s1, t);
    SamePut(s1, s2, Reached(s, actions), job, maxkeys != 0 && HowMany(s, s.lists[b], node.key) >= maxkeys);
    if maxkeys == 0 {
      AddLinks(s2, t, job, actions[1..][1..]);
    } else {
      NoneCounted(s2, s2.lists[b], node.key);
      ListIsThere(s, b);
      HowManySame(s, s2, s.lists[b], node.key);
      AddSearches(s2, t, job, 0, 0, actions[1..][1..]);
    }
    assert s.heap[e := node] - {e} == s.heap && s.timers - {e} == s.timers;
  }

  lemma NoneCounted(s: State, list: seq<Id>, key: string)
    ensures HowMany(s, list[..0], key) == 0
  {
  }

  lemma FreshAddress(s: State, e: Id)
    requires Good(s) && e !in s.heap
    ensures e !in s.timers && forall b :: 0 <= b < |s.lists| ==> e !in s.lists[b]
  {
    hide LocksOk, Conserved, Hashed;
    EntriesStay(s);
    FreshEntry(s, e, Node("", 0, 0));
  }

  lemma AddLocks(s: State, t: nat, job: Job)
    requires t < |s.pcs| && s.pcs[t] == Lock(job) && Ready(s, t) && Adds(s, job)
    ensures var s2 := Advance(s, t);
            Stores(s, s2) && t < |s2.pcs|
            && if job.maxkeys == 0 then s2.pcs[t] == Link(job) else Searches(s2, t, job, 0, 0)
  {
  }

  lemma {:induction false} SiftedOne(list: seq<Id>, e: Id)
    requires Distinct(list)
    ensures Sifted(list, {e}) == Without(list, e)
  {
    if list == [] {
    } else {
      var tail := list[1..];
      if list[0] == e {
        assert e !in tail;
        SiftedOther(tail, {e}, e);
        assert {e} - {e} == {};
        SiftedNone(tail);
      } else {
        SiftedOne(tail, e);
      }
    }
  }

  lemma FireLocks(s: State, t: nat, job: Job)
    requires job.Fire? && t < |s.pcs| && s.pcs[t] == Lock(job) && Ready(s, t)
    ensures Stores(s, Advance(s, t)) && t < |Advance(s, t).pcs| && Advance(s, t).pcs[t] == Unlink(job, job.e, None)
  {
  }

  lemma FireUnlinks(s: State, t: nat, job: Job)
    requires job.Fire? && t < |s.pcs| && s.pcs[t] == Unlink(job, job.e, None) && Ready(s, t) && BucketOf(job) < |s.lists|
    ensures var b, s2 := BucketOf(job), Advance(s, t);
            && Stores(s.(lists := s.lists[b := Without(s.lists[b], job.e)]), s2)
            && t < |s2.pcs| && s2.pcs[t] == Hold(job, job.e, None)
  {
  }

  lemma OnlyInItsList(s: State, e: Id, b: nat)
    requires Good(s) && e in s.heap && b < |s.lists| && b != Bucket(s.heap[e].hash)
    ensures Without(s.lists[b], e) == s.lists[b] == Sifted(s.lists[b], {e})
  {
    hide LocksOk, Conserved;
    ListIsDistinct(s, b);
    assert e !in s.lists[b];
    SiftedOther(s.lists[b], {e}, e);
    assert {e} - {e} == {};
    SiftedNone(s.lists[b]);
    SiftedOne(s.lists[b], e);
  }

  /** The timer callback alone frees its own entry, wherever in its list that is by now. */
  lemma ExpiryFreesItsOwn(s: State, t: nat, e: Id, actions: seq<Action>)
    requires Reachable(s) && t < |s.pcs| && actions != [] && actions[0] == Pick(t, e) && Only(actions[1..], t)
    requires IsRun(s, actions) && |Reached(s, actions).pcs| == |s.pcs| && Reached(s, actions).pcs[t] == Idle
    ensures e in s.heap
    ensures var s2 := Reached(s, actions);
            && s2.heap == s.heap - {e} && s2.timers == s.timers - {e} && s2.handed == s.handed && s2.added == s.added
            && |s2.lists| == |s.lists| && (forall b :: 0 <= b < |s.lists| ==> s2.lists[b] == Sifted(s.lists[b], {e}))
            && s2.freed == s.freed + multiset{Keyed(s.heap[e].key, s.heap[e].value)}
  {
    hide Good, Advance, Ready, Reachable, IsRun, Reached, Sifted, Without;
    ReachableIsGood(s);
    PickIs(s, t, e, actions);
    var s1, job, rest := Step(s, Pick(t, e)), Fire(e, s.heap[e].hash), actions[1..];
    OneStep(s1, t, rest);
    FireLocks(s1, t, job);
    s1, rest := Advance(s1, t), rest[1..];
    AllBuckets(s1);
    OneStep(s1, t, rest);
    FireUnlinks(s1, t, job);
    s1, rest := Advance(s1, t), rest[1..];
    OneStep(s1, t, rest);
    LetsGo(s1, t, job, e, None);
    s1, rest := Advance(s1, t), rest[1..];
    OneStep(s1, t, rest);
    Disposes(s1, t, job, e);
    IsOver(Advance(s1, t), t, rest[1..]);
    forall b | 0 <= b < |s.lists|
      ensures (if b == Bucket(s.heap[e].hash) then Without(s.lists[b], e) else s.lists[b]) == Sifted(s.lists[b], {e})
    {
      if b == Bucket(s.heap[e].hash) {
        DistinctList(s, b);
        SiftedOne(s.lists[b], e);
      } else {
        OnlyInItsList(s, e, b);
      }
    }
    assert s.timers[e := Firing] - {e} == s.timers - {e};
  }

  lemma DistinctList(s: State, b: nat)
    requires Good(s) && b < |s.lists|
    ensures Distinct(s.lists[b])
  {
    hide LocksOk, Conserved;
    ListIsDistinct(s, b);
  }

  lemma PickIs(s: State, t: nat, e: Id, actions: seq<Action>)
    requires Good(s) && t < |s.pcs| && actions != [] && actions[0] == Pick(t, e) && Only(actions[1..], t)
    requires IsRun(s, actions) && |Reached(s, actions).pcs| == |s.pcs| && Reached(s, actions).pcs[t] == Idle
    ensures e in s.heap && Enabled(s, Pick(t, e))
    ensures var s1 := Step(s, Pick(t, e));
            && Good(s1) && s1.pcs[t] == Lock(Fire(e, s.heap[e].hash)) && Ends(s1, t, actions[1..])
            && Reached(s, actions) == Reached(s1, actions[1..])
  {
    hide Inv, Hashed, Advance, Ready;
    EveryStep(s, Pick(t, e));
    HashedStep(s, Pick(t, e));
  }
}
