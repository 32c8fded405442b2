/** What the timed cache is for, on plain sequences: one list of entries, and the operations on the entries of a key. */
module CacheLists {

  import opened Options
  import opened Sequences

  /** A cached object is its address. */
  type Value = nat

  /** `id` is the entry's address, and stands for its timer too. */
  datatype Entry = Entry(id: nat, key: string, hash: nat, value: Value)

  function Filter(s: seq<Entry>, f: Entry -> bool): (r: seq<Entry>)
    ensures |r| <= |s|
  {
    if s == [] then [] else One(s[0], f) + Filter(s[1..], f)
  }

  function One(e: Entry, f: Entry -> bool): (r: seq<Entry>)
    ensures |r| <= 1
  {
    if f(e) then [e] else []
  }

  function Values(s: seq<Entry>): (r: seq<Value>)
    ensures |r| == |s|
  {
    if s == [] then [] else [s[0].value] + Values(s[1..])
  }

  /** The entries of one key. */
  function HasKey(key: string): Entry -> bool {
    (e: Entry) => e.key == key
  }

  /** Entries whose timer callback is already committed: ptimer_stop returns 1 for them. */
  function Running(running: set<nat>): Entry -> bool {
    (e: Entry) => e.id in running
  }

  function Stopped(running: set<nat>): Entry -> bool {
    (e: Entry) => e.id !in running
  }

  predicate IsPrefix(p: string, s: string) {
    |p| <= |s| && s[..|p|] == p
  }

  /** One of the prefixes starts the key. */
  predicate Matches(key: string, prefixes: seq<string>) {
    exists i :: 0 <= i < |prefixes| && IsPrefix(prefixes[i], key)
  }

  /** What cleaning by prefixes leaves, and what it frees. */
  function Spared(prefixes: seq<string>, running: set<nat>): Entry -> bool {
    (e: Entry) => e.id in running || !Matches(e.key, prefixes)
  }

  function Swept(prefixes: seq<string>, running: set<nat>): Entry -> bool {
    (e: Entry) => e.id !in running && Matches(e.key, prefixes)
  }

  /** The newest entry that can be stopped, and the list without it. */
  function TakeFree(s: seq<Entry>, running: set<nat>): (r: (Option<Value>, seq<Entry>)) {
    if s == [] then (None, [])
    else if s[0].id !in running then (Some(s[0].value), s[1..])
    else
      var t := TakeFree(s[1..], running);
      (t.0, [s[0]] + t.1)
  }

  lemma {:induction false} FilterAppend(s: seq<Entry>, t: seq<Entry>, f: Entry -> bool)
    ensures Filter(s + t, f) == Filter(s, f) + Filter(t, f)
  {
    hide One;
    if s == [] {
      assert s + t == t;
    } else {
      FilterAppend(s[1..], t, f);
      assert (s + t)[1..] == s[1..] + t;
      ConcatAssoc(One(s[0], f), Filter(s[1..], f), Filter(t, f));
    }
  }

  lemma FilterOne(e: Entry, s: seq<Entry>, f: Entry -> bool)
    ensures Filter([e], f) == One(e, f)
    ensures Filter([e] + s, f) == One(e, f) + Filter(s, f)
  {
    hide One;
    assert One(e, f) + [] == One(e, f);
    assert ([e] + s)[1..] == s;
  }

  lemma ValuesFirst(s: seq<Entry>)
    requires s != []
    ensures Values(s) == [s[0].value] + Values(s[1..])
  {
  }

  lemma {:induction false} ValuesAppend(s: seq<Entry>, t: seq<Entry>)
    ensures Values(s + t) == Values(s) + Values(t)
  {
    if s == [] {
      assert s + t == t;
    } else {
      hide Values;
      ValuesAppend(s[1..], t);
      ValuesFirst(s);
      ValuesFirst(s + t);
      assert (s + t)[1..] == s[1..] + t;
      ConcatAssoc([s[0].value], Values(s[1..]), Values(t));
    }
  }

  /** Removing one entry leaves the lists of all other keys alone, and takes one entry out of its own. */
  lemma FilterRemove(x: seq<Entry>, e: Entry, y: seq<Entry>, f: Entry -> bool)
    ensures Filter(x + ([e] + y), f) == Filter(x, f) + (One(e, f) + Filter(y, f))
    ensures Filter(x + y, f) == Filter(x, f) + Filter(y, f)
    ensures !f(e) ==> Filter(x + y, f) == Filter(x + ([e] + y), f)
  {
    hide Filter;
    FilterAppend(x, [e] + y, f);
    FilterOne(e, y, f);
    FilterAppend(x, y, f);
    assert [] + Filter(y, f) == Filter(y, f);
  }

  lemma CutAt(s: seq<Entry>, i: nat)
    requires i < |s|
    ensures s == s[..i] + ([s[i]] + s[i + 1..])
  {
  }

  /** TakeFree skips entries that are running. */
  lemma {:induction false} TakeFreeSkips(a: seq<Entry>, s: seq<Entry>, running: set<nat>)
    requires AllRunning(a, running)
    ensures TakeFree(a + s, running) == (TakeFree(s, running).0, a + TakeFree(s, running).1)
  {
    if a == [] {
      assert a + s == s;
      assert a + TakeFree(s, running).1 == TakeFree(s, running).1;
    } else {
      TakeFreeSkips(a[1..], s, running);
      assert (a + s)[1..] == a[1..] + s;
      ConcatAssoc([a[0]], a[1..], TakeFree(s, running).1);
      assert [a[0]] + a[1..] == a;
    }
  }

  predicate AllRunning(s: seq<Entry>, running: set<nat>) {
    forall i :: 0 <= i < |s| ==> s[i].id in running
  }

  lemma {:induction false} FilterAllRunning(s: seq<Entry>, key: string, running: set<nat>)
    requires forall j :: 0 <= j < |s| ==> s[j].key != key || s[j].id in running
    ensures AllRunning(Filter(s, HasKey(key)), running)
  {
    if s == [] {
    } else {
      FilterAllRunning(s[1..], key, running);
    }
  }

  /**
   * The loop of pcache_get finds the first entry of the key whose timer can be stopped: that is the newest such entry
   * in the key's own list, and removing it from the bucket removes it from that list.
   */
  lemma FirstFree(s: seq<Entry>, key: string, running: set<nat>, i: nat)
    requires i < |s| && s[i].key == key && s[i].id !in running
    requires forall j :: 0 <= j < i ==> s[j].key != key || s[j].id in running
    ensures TakeFree(Filter(s, HasKey(key)), running)
         == (Some(s[i].value), Filter(s[..i] + s[i + 1..], HasKey(key)))
  {
    hide Filter, TakeFree;
    CutAt(s, i);
    FilterRemove(s[..i], s[i], s[i + 1..], HasKey(key));
    FilterAllRunning(s[..i], key, running);
    var a, b := Filter(s[..i], HasKey(key)), Filter(s[i + 1..], HasKey(key));
    TakeFreeSkips(a, [s[i]] + b, running);
    TakeFreePush(s[i], b, running);
  }

  lemma NoneFree(s: seq<Entry>, key: string, running: set<nat>)
    requires forall j :: 0 <= j < |s| ==> s[j].key != key || s[j].id in running
    ensures TakeFree(Filter(s, HasKey(key)), running) == (None, Filter(s, HasKey(key)))
  {
    var a := Filter(s, HasKey(key));
    FilterAllRunning(s, key, running);
    TakeFreeSkips(a, [], running);
    assert a + [] == a;
  }

  /** Last in, first out: what was added last is what the next get returns, and the rest is as it was. */
  lemma TakeFreePush(e: Entry, s: seq<Entry>, running: set<nat>)
    requires e.id !in running
    ensures TakeFree([e] + s, running) == (Some(e.value), s)
  {
    assert ([e] + s)[1..] == s;
  }

  /** Getting until there is nothing to get leaves the running entries, and hands out the others newest first. */
  lemma {:induction false} TakeFreeDrains(s: seq<Entry>, running: set<nat>)
    ensures var t := TakeFree(s, running);
            && Filter(t.1, Running(running)) == Filter(s, Running(running))
            && (t.0.None? ==> t.1 == s == Filter(s, Running(running)) && Filter(s, Stopped(running)) == [])
            && (t.0.Some? ==>
                  && |t.1| < |s|
                  && Values(Filter(s, Stopped(running))) == [t.0.value] + Values(Filter(t.1, Stopped(running))))
  {
    if s == [] {
    } else {
      DrainStep(s[0], s[1..], running);
      if s[0].id in running {
        TakeFreeDrains(s[1..], running);
        DrainStep(s[0], TakeFree(s[1..], running).1, running);
        assert [s[0]] + s[1..] == s;
      }
    }
  }

  lemma DrainStep(e: Entry, s: seq<Entry>, running: set<nat>)
    ensures Filter([e] + s, Running(running)) == (if e.id in running then [e] else []) + Filter(s, Running(running))
    ensures e.id in running ==> Filter([e] + s, Stopped(running)) == Filter(s, Stopped(running))
    ensures e.id !in running ==>
              Values(Filter([e] + s, Stopped(running))) == [e.value] + Values(Filter(s, Stopped(running)))
  {
    FilterOne(e, s, Running(running));
    FilterOne(e, s, Stopped(running));
    assert ([e] + s)[1..] == s;
    assert [] + Filter(s, Stopped(running)) == Filter(s, Stopped(running));
  }

  /** A sweep takes from the list of each key it matches what can be stopped, and nothing from any other key. */
  lemma {:induction false} SweepOfKey(s: seq<Entry>, prefixes: seq<string>, running: set<nat>, key: string)
    ensures Filter(Filter(s, Spared(prefixes, running)), HasKey(key)) == Unswept(Filter(s, HasKey(key)), prefixes, running, key)
  {
    hide Matches, One;
    if s == [] {
    } else {
      SweepOfKey(s[1..], prefixes, running, key);
      SweepOne(s[0], prefixes, running, key);
      FilterAppend(One(s[0], Spared(prefixes, running)), Filter(s[1..], Spared(prefixes, running)), HasKey(key));
      FilterAppend(One(s[0], HasKey(key)), Filter(s[1..], HasKey(key)), Running(running));
    }
  }

  function Unswept(list: seq<Entry>, prefixes: seq<string>, running: set<nat>, key: string): seq<Entry> {
    if Matches(key, prefixes) then Filter(list, Running(running)) else list
  }

  lemma SweepOne(e: Entry, prefixes: seq<string>, running: set<nat>, key: string)
    ensures Filter(One(e, Spared(prefixes, running)), HasKey(key)) == Unswept(One(e, HasKey(key)), prefixes, running, key)
  {
    hide Matches;
    FilterOne(e, [], HasKey(key));
    FilterOne(e, [], Running(running));
  }
}
