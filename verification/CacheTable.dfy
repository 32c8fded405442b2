/** The hash table of the timed cache, one call at a time; the calls that race are in CacheSteps. */
module CacheTable {
  import opened Options
  import opened CacheLists
  import opened Sequences
  import opened WordSizes

  const BUCKETS: nat := 2048
  const LOCKS: nat := 8

  type Hash = h: nat | h < TWO_TO_32

  function Bucket(h: nat): (b: nat)
    ensures b < BUCKETS
  {
    h % BUCKETS
  }

  /** hash_to_lock on a 32-bit hash: the multiplication wraps. */
  function LockOf(h: Hash): (l: nat)
    ensures l < LOCKS
  {
    ((h * LOCKS % TWO_TO_32) / BUCKETS) % LOCKS
  }

  /** The clean functions apply the same macro to a bucket index, which is wider and never wraps. */
  function LockOfBucket(b: nat): nat {
    ((b * LOCKS) / BUCKETS) % LOCKS
  }

  /** Any two hashes in one bucket are guarded by one lock: the one that the clean functions take for that bucket. */
  lemma BucketHasOneLock(h: Hash)
    ensures LockOf(h) == LockOfBucket(Bucket(h))
  {
    var k, m := h / 0x2000_0000, h % 0x2000_0000;
    Wraps(k, m);
    SameBucket(k, m);
    SmallHash(m);
  }

  /** The multiplication throws away the three high bits of the hash. */
  lemma Wraps(k: nat, m: nat)
    requires m < 0x2000_0000
    ensures (0x2000_0000 * k + m) * LOCKS % TWO_TO_32 == m * LOCKS
  {
    assert (0x2000_0000 * k + m) * LOCKS == TWO_TO_32 * k + m * LOCKS;
  }

  lemma SameBucket(k: nat, m: nat)
    ensures Bucket(0x2000_0000 * k + m) == Bucket(m)
  {
    RestIsUnique(0x4_0000 * k + m / BUCKETS, m % BUCKETS);
  }

  lemma RestIsUnique(q: nat, r: nat)
    requires r < BUCKETS
    ensures (BUCKETS * q + r) % BUCKETS == r
  {
    var x := BUCKETS * q + r;
    var d := x / BUCKETS - q;
    assert BUCKETS * d == r - x % BUCKETS;
  }

  /** Where nothing wraps, the lock is chosen by the three high bits of the bucket index. */
  lemma SmallHash(m: nat)
    ensures ((m * LOCKS) / BUCKETS) % LOCKS == LockOfBucket(Bucket(m))
  {
    var q, b := m / BUCKETS, m % BUCKETS;
    assert m * LOCKS == BUCKETS * (LOCKS * q) + b * LOCKS;
    assert (m * LOCKS) / BUCKETS == LOCKS * q + (b * LOCKS) / BUCKETS;
  }

  /** What sweeping the first n buckets frees, in order. */
  ghost function SweptValues(t: seq<seq<Entry>>, n: nat, prefixes: seq<string>, running: set<nat>): seq<Value>
    requires n <= |t|
  {
    if n == 0 then [] else
      SweptValues(t, n - 1, prefixes, running) + Values(Filter(t[n - 1], Swept(prefixes, running)))
  }

  class Table {
    const buckets: array<seq<Entry>>
    const hash: string -> Hash
    /** The objects passed to their free callbacks so far. */
    var freed: seq<Value>

    ghost predicate Valid()
      reads buckets
    {
      && buckets.Length == BUCKETS
      && forall b :: 0 <= b < BUCKETS ==> Filed(buckets[b], b)
    }

    /** The entries of a list carry their hash, and belong there. */
    ghost predicate Filed(s: seq<Entry>, b: nat) {
      forall i :: 0 <= i < |s| ==> s[i].hash == hash(s[i].key) && Bucket(s[i].hash) == b
    }

    /** The abstract state: for every key its entries, newest first. */
    ghost function Stack(key: string): seq<Entry>
      requires buckets.Length == BUCKETS
      reads buckets
    {
      Filter(buckets[Bucket(hash(key))], HasKey(key))
    }

    /** pcache_init */
    constructor (hash: string -> Hash)
      ensures Valid() && fresh(buckets) && this.hash == hash && freed == []
      ensures forall key :: Stack(key) == []
    {
      this.hash := hash;
      freed := [];
      buckets := new seq<Entry>[BUCKETS](_ => []);
    }

    /** The loop of pcache_get and pcache_del: unlinks the first entry of the key whose timer it can stop. */
    method Detach(key: string, running: set<nat>) returns (r: Option<Value>)
      requires Valid()
      modifies buckets
      ensures Valid()
      ensures (r, Stack(key)) == TakeFree(old(Stack(key)), running)
      ensures forall k :: k != key ==> Stack(k) == old(Stack(k))
      ensures forall b :: 0 <= b < BUCKETS ==> |buckets[b]| <= |old(buckets[b])|
      ensures r.Some? ==> |buckets[Bucket(hash(key))]| < |old(buckets[Bucket(hash(key))])|
    {
      hide Filter, TakeFree;
      var h := hash(key);
      var lst := buckets[Bucket(h)];
      for i := 0 to |lst|
        invariant forall j :: 0 <= j < i ==> lst[j].key != key || lst[j].id in running
        invariant buckets[..] == old(buckets[..])
      {
        if lst[i].hash == h && lst[i].key == key {
          if lst[i].id in running {
            continue;
          }
          FirstFree(lst, key, running, i);
          RemovedFromOthers(lst, key, i);
          buckets[Bucket(h)] := lst[..i] + lst[i + 1..];
          return Some(lst[i].value);
        }
      }
      NoneFree(lst, key, running);
      r := None;
    }

    lemma RemovedFromOthers(s: seq<Entry>, key: string, i: nat)
      requires i < |s| && s[i].key == key
      ensures forall k :: k != key ==> Filter(s[..i] + s[i + 1..], HasKey(k)) == Filter(s, HasKey(k))
    {
      hide Filter;
      forall k | k != key
        ensures Filter(s[..i] + s[i + 1..], HasKey(k)) == Filter(s, HasKey(k))
      {
        CutAt(s, i);
        FilterRemove(s[..i], s[i], s[i + 1..], HasKey(k));
      }
    }

    /** pcache_get */
    method Get(key: string, running: set<nat>) returns (r: Option<Value>)
      requires Valid()
      modifies buckets
      ensures Valid()
      ensures (r, Stack(key)) == TakeFree(old(Stack(key)), running)
      ensures forall k :: k != key ==> Stack(k) == old(Stack(k))
    {
      r := Detach(key, running);
    }

    /** pcache_has, which also sees entries that are about to expire. */
    method Has(key: string) returns (r: bool)
      requires Valid()
      ensures r <==> Stack(key) != []
    {
      var h := hash(key);
      var lst := buckets[Bucket(h)];
      for i := 0 to |lst|
        invariant Filter(lst[..i], HasKey(key)) == []
      {
        KeyAt(lst, i, key);
        if lst[i].hash == h && lst[i].key == key {
          return true;
        }
      }
      assert lst[..|lst|] == lst;
      r := false;
    }

    lemma KeyAt(s: seq<Entry>, i: nat, key: string)
      requires i < |s|
      ensures Filter(s[..i + 1], HasKey(key)) == Filter(s[..i], HasKey(key)) + (if s[i].key == key then [s[i]] else [])
      ensures |Filter(s[..i + 1], HasKey(key))| <= |Filter(s, HasKey(key))|
    {
      hide Filter;
      assert s[..i + 1] == s[..i] + [s[i]];
      FilterAppend(s[..i], [s[i]], HasKey(key));
      FilterOne(s[i], [], HasKey(key));
      PrefixCounts(s, i + 1, key);
    }

    lemma PrefixCounts(s: seq<Entry>, i: nat, key: string)
      requires i <= |s|
      ensures |Filter(s[..i], HasKey(key))| <= |Filter(s, HasKey(key))|
    {
      hide Filter;
      assert s == s[..i] + s[i..];
      FilterAppend(s[..i], s[i..], HasKey(key));
    }

    /** pcache_add: full keys free the object at once, others get it on top; maxkeys 0 is no limit. */
    method Add(key: string, value: Value, id: nat, maxkeys: nat)
      requires Valid()
      modifies this`freed, buckets
      ensures Valid()
      ensures var full := maxkeys != 0 && |old(Stack(key))| >= maxkeys;
              && Stack(key) == (if full then [] else [Entry(id, key, hash(key), value)]) + old(Stack(key))
              && freed == old(freed) + if full then [value] else []
      ensures maxkeys != 0 ==> |Stack(key)| <= if |old(Stack(key))| > maxkeys then |old(Stack(key))| else maxkeys
      ensures forall k :: k != key ==> Stack(k) == old(Stack(k))
    {
      hide Filter;
      var h := hash(key);
      var lst := buckets[Bucket(h)];
      var full := Crowded(key, maxkeys);
      if full {
        freed := freed + [value];
        assert [] + Stack(key) == Stack(key);
      } else {
        var he := Entry(id, key, h, value);
        PushedOn(he, lst);
        buckets[Bucket(h)] := [he] + lst;
      }
    }

    lemma PushedOn(e: Entry, s: seq<Entry>)
      ensures Filter([e] + s, HasKey(e.key)) == [e] + Filter(s, HasKey(e.key))
      ensures forall k :: k != e.key ==> Filter([e] + s, HasKey(k)) == Filter(s, HasKey(k))
    {
      hide Filter;
      FilterOne(e, s, HasKey(e.key));
      forall k | k != e.key
        ensures Filter([e] + s, HasKey(k)) == Filter(s, HasKey(k))
      {
        FilterOne(e, s, HasKey(k));
        assert [] + Filter(s, HasKey(k)) == Filter(s, HasKey(k));
      }
    }

    /** The counting loop of pcache_add. */
    method Crowded(key: string, maxkeys: nat) returns (full: bool)
      requires Valid()
      ensures full <==> maxkeys != 0 && |Stack(key)| >= maxkeys
    {
      hide Filter;
      full := false;
      if maxkeys == 0 {
        return;
      }
      var h := hash(key);
      var lst := buckets[Bucket(h)];
      var l := 0;
      assert Filter(lst[..0], HasKey(key)) == [];
      for i := 0 to |lst|
        invariant l == |Filter(lst[..i], HasKey(key))| < maxkeys
      {
        KeyAt(lst, i, key);
        if lst[i].hash == h && lst[i].key == key {
          l := l + 1;
          if l == maxkeys {
            return true;
          }
        }
      }
      assert lst[..|lst|] == lst;
    }

    /** pcache_del: starts over after every entry it frees, and ends. */
    method Del(key: string, running: set<nat>)
      requires Valid()
      modifies this`freed, buckets
      ensures Valid()
      ensures Stack(key) == Filter(old(Stack(key)), Running(running))
      ensures freed == old(freed) + Values(Filter(old(Stack(key)), Stopped(running)))
      ensures forall k :: k != key ==> Stack(k) == old(Stack(k))
    {
      hide Filter, TakeFree, Values;
      ghost var gone: seq<Value> := [];
      while true
        invariant Valid()
        invariant Filter(Stack(key), Running(running)) == Filter(old(Stack(key)), Running(running))
        invariant gone + Values(Filter(Stack(key), Stopped(running))) == Values(Filter(old(Stack(key)), Stopped(running)))
        invariant freed == old(freed) + gone
        invariant forall k :: k != key ==> Stack(k) == old(Stack(k))
        decreases |buckets[Bucket(hash(key))]|
      {
        TakeFreeDrains(Stack(key), running);
        ghost var rest := Values(Filter(Stack(key), Stopped(running)));
        var r := Detach(key, running);
        if r.None? {
          assert rest == [] by { NoValues(); }
          assert gone + rest == gone;
          return;
        }
        ConcatAssoc(old(freed), gone, [r.value]);
        ConcatAssoc(gone, [r.value], Values(Filter(Stack(key), Stopped(running))));
        gone := gone + [r.value];
        freed := freed + [r.value];
      }
    }

    lemma NoValues()
      ensures Values([]) == []
    {
    }

    /** The timer callback of one entry, when it gets the lock: wherever in its list the entry is by now, it goes. */
    method Expire(b: nat, i: nat)
      requires Valid() && b < BUCKETS && i < |buckets[b]|
      modifies this`freed, buckets
      ensures Valid()
      ensures var e := old(buckets[b][i]);
              && freed == old(freed) + [e.value]
              && multiset(Stack(e.key)) + multiset{e} == multiset(old(Stack(e.key)))
              && forall k :: k != e.key ==> Stack(k) == old(Stack(k))
    {
      hide Filter;
      var lst := buckets[b];
      var e := lst[i];
      RemovedFromOthers(lst, e.key, i);
      CutAt(lst, i);
      FilterRemove(lst[..i], e, lst[i + 1..], HasKey(e.key));
      buckets[b] := lst[..i] + lst[i + 1..];
      freed := freed + [e.value];
    }

    /** The comparison loop of pcache_clean_oneof. */
    method OneOf(key: string, prefixes: seq<string>) returns (found: bool)
      ensures found <==> Matches(key, prefixes)
    {
      for i := 0 to |prefixes|
        invariant forall j :: 0 <= j < i ==> !IsPrefix(prefixes[j], key)
      {
        if IsPrefix(prefixes[i], key) {
          return true;
        }
      }
      found := false;
    }

    /** The inner loop: walks a list while unlinking from it. */
    method SweepBucket(b: nat, prefixes: seq<string>, running: set<nat>)
      requires Valid() && b < BUCKETS
      modifies this`freed, buckets
      ensures Valid()
      ensures buckets[b] == Filter(old(buckets[b]), Spared(prefixes, running))
      ensures freed == old(freed) + Values(Filter(old(buckets[b]), Swept(prefixes, running)))
      ensures forall c :: 0 <= c < BUCKETS && c != b ==> buckets[c] == old(buckets[c])
    {
      hide Filter, Values, Matches;
      ghost var lst := buckets[b];
      ghost var done: seq<Entry>, gone: seq<Value> := [], [];
      var i := 0;
      SweepStart(lst, prefixes, running);
      while i < |buckets[b]|
        invariant done <= lst && i <= |buckets[b]| && buckets[b][i..] == lst[|done|..]
        invariant buckets[b][..i] == Filter(done, Spared(prefixes, running))
        invariant gone == Values(Filter(done, Swept(prefixes, running)))
        invariant freed == old(freed) + gone
        invariant Filed(buckets[b], b)
        invariant forall c :: 0 <= c < BUCKETS && c != b ==> buckets[c] == old(buckets[c])
        decreases |buckets[b]| - i
      {
        var he := buckets[b][i];
        SweepTurn(done, he, prefixes, running);
        Advance(buckets[b], i, lst, |done|);
        done := done + [he];
        var hit := OneOf(he.key, prefixes);
        if hit && he.id !in running {
          buckets[b] := buckets[b][..i] + buckets[b][i + 1..];
          freed := freed + [he.value];
          ConcatAssoc(old(freed), gone, [he.value]);
          gone := gone + [he.value];
        } else {
          i := i + 1;
        }
      }
      assert done == lst;
    }

    lemma SweepStart(s: seq<Entry>, prefixes: seq<string>, running: set<nat>)
      ensures Filter([], Spared(prefixes, running)) == [] && Values(Filter([], Swept(prefixes, running))) == []
    {
    }

    lemma Advance(s: seq<Entry>, i: nat, lst: seq<Entry>, n: nat)
      requires i < |s| && n <= |lst| && s[i..] == lst[n..]
      ensures n < |lst| && lst[n] == s[i] && lst[..n + 1] == lst[..n] + [s[i]] && s[i + 1..] == lst[n + 1..]
      ensures s[..i + 1] == s[..i] + [s[i]]
      ensures var t := s[..i] + s[i + 1..]; t[..i] == s[..i] && t[i..] == s[i + 1..]
    {
      assert lst[n] == lst[n..][0] == s[i..][0];
      assert s[i + 1..] == s[i..][1..] && lst[n + 1..] == lst[n..][1..];
    }

    lemma SweepTurn(done: seq<Entry>, e: Entry, prefixes: seq<string>, running: set<nat>)
      ensures var hit := Matches(e.key, prefixes) && e.id !in running;
              && Filter(done + [e], Spared(prefixes, running))
              == Filter(done, Spared(prefixes, running)) + (if hit then [] else [e])
              && Values(Filter(done + [e], Swept(prefixes, running)))
              == Values(Filter(done, Swept(prefixes, running))) + (if hit then [e.value] else [])
    {
      hide Filter, Matches;
      var sp, sw := Spared(prefixes, running), Swept(prefixes, running);
      FilterAppend(done, [e], sp);
      FilterAppend(done, [e], sw);
      FilterOne(e, [], sp);
      FilterOne(e, [], sw);
      ValuesAppend(Filter(done, sw), One(e, sw));
    }

    /**
     * pcache_clean_oneof: of every key that starts with one of the prefixes it frees exactly the entries whose timers
     * it can stop, and leaves all other keys alone. With nothing running no entry of such a key is left.
     */
    method CleanOneof(prefixes: seq<string>, running: set<nat>)
      requires Valid()
      modifies this`freed, buckets
      ensures Valid()
      ensures forall key :: Stack(key) == Unswept(old(Stack(key)), prefixes, running, key)
      ensures freed == old(freed) + SweptValues(old(buckets[..]), BUCKETS, prefixes, running)
      ensures forall key :: (forall i :: 0 <= i < |prefixes| ==> !(prefixes[i] <= key)) ==> Stack(key) == old(Stack(key))
      ensures forall key, i :: 0 <= i < |prefixes| && prefixes[i] <= key ==>
                                 Stack(key) == Filter(old(Stack(key)), Running(running))
    {
      hide Filter, Values, Matches;
      ghost var was := buckets[..];
      for h := 0 to BUCKETS
        invariant Valid()
        invariant forall c :: 0 <= c < h ==> buckets[c] == Filter(was[c], Spared(prefixes, running))
        invariant forall c :: h <= c < BUCKETS ==> buckets[c] == was[c]
        invariant freed == old(freed) + SweptValues(was, h, prefixes, running)
      {
        ConcatAssoc(old(freed), SweptValues(was, h, prefixes, running), Values(Filter(was[h], Swept(prefixes, running))));
        SweepBucket(h, prefixes, running);
      }
      forall key
        ensures Stack(key) == Unswept(old(Stack(key)), prefixes, running, key)
      {
        SweepOfKey(was[Bucket(hash(key))], prefixes, running, key);
      }
      forall key
        ensures Matches(key, prefixes) <==> exists i :: 0 <= i < |prefixes| && prefixes[i] <= key
      {
        StartsIt(key, prefixes);
      }
    }

    /** pcache_clean sweeps every key: the empty prefix starts all of them. */
    method Clean(running: set<nat>)
      requires Valid()
      modifies this`freed, buckets
      ensures Valid()
      ensures forall key :: Stack(key) == Filter(old(Stack(key)), Running(running))
      ensures freed == old(freed) + SweptValues(old(buckets[..]), BUCKETS, [""], running)
    {
      hide Filter;
      forall key
        ensures Matches(key, [""])
      {
        assert IsPrefix([""][0], key);
      }
      CleanOneof([""], running);
    }
  }

  lemma StartsIt(key: string, prefixes: seq<string>)
    ensures Matches(key, prefixes) <==> exists i :: 0 <= i < |prefixes| && prefixes[i] <= key
  {
    forall i | 0 <= i < |prefixes|
      ensures IsPrefix(prefixes[i], key) <==> prefixes[i] <= key
    {
    }
  }

  /**
   * Last in, first out: getting right after adding returns the object that was added, and leaves the key as it was,
   * unless the key was full, or the timer has been faster.
   */
  method AddThenGet(t: Table, key: string, value: Value, id: nat, maxkeys: nat, running: set<nat>)
    returns (r: Option<Value>)
    requires t.Valid()
    modifies t`freed, t.buckets
    ensures t.Valid() && forall k :: k != key ==> t.Stack(k) == old(t.Stack(k))
    ensures var full := maxkeys != 0 && |old(t.Stack(key))| >= maxkeys;
            && (!full && id !in running ==> r == Some(value) && t.Stack(key) == old(t.Stack(key)) && t.freed == old(t.freed))
            && (full ==> (r, t.Stack(key)) == TakeFree(old(t.Stack(key)), running) && t.freed == old(t.freed) + [value])
  {
    hide Filter, TakeFree;
    t.Add(key, value, id, maxkeys);
    NothingFollows(t.freed, []);
    r := t.Get(key, running);
    if id !in running {
      TakeFreePush(Entry(id, key, t.hash(key), value), old(t.Stack(key)), running);
    }
    assert [] + old(t.Stack(key)) == old(t.Stack(key));
  }

  /** The entries of a key are those of its bucket that carry it. */
  lemma {:induction false} OfOneKey(s: seq<Entry>, key: string, e: Entry)
    ensures e in Filter(s, HasKey(key)) <==> e in s && e.key == key
  {
    if s == [] {
    } else {
      OfOneKey(s[1..], key, e);
    }
  }
}
