/**
 * Locking the crypto folder against the calls that race with it. The flag that pcryptofolder_lock clears first is read
 * and written without crypto_lock, so a codec may be cached after the cleaning.
 */
module CryptoRaces {

  /** Where a thread is in its call. */
  datatype Doing =
    | Idle
    /** pcryptofolder_lock: the flag is cleared; the write lock is held; only the cleaning is left to do. */
    | Locking | Unloading | Cleaning
    /** pcryptofolder_unlock, with the write lock. */
    | Unlocking
    /** A codec is given back, and the flag was seen set. */
    | Releasing
    /** A codec is asked for: the flag was seen set; nothing was cached, and the folder is started under the read lock. */
    | Getting | Making

  /** The two flags, how many objects are cached under one key of the five classes, and the threads. */
  datatype State = State(startedL: bool, startedUn: bool, cached: nat, threads: seq<Doing>)

  /**
   * May a call that locks begin while a codec is being given back? May it have cleared the flag, and still wait for the
   * write lock, while a call that unlocks has that lock?
   */
  datatype Policy = Policy(overlapsRelease: bool, overlapsUnlock: bool)

  predicate Busy(ts: seq<Doing>, d: Doing) {
    exists t :: 0 <= t < |ts| && ts[t] == d
  }

  /** crypto_lock, as those who hold it see it. */
  predicate CanWrite(s: State) {
    !Busy(s.threads, Unloading) && !Busy(s.threads, Unlocking) && !Busy(s.threads, Making)
  }

  predicate CanRead(s: State) {
    !Busy(s.threads, Unloading) && !Busy(s.threads, Unlocking)
  }

  datatype Action =
    | ClearFlag(t: nat) | LockWrite(t: nat) | Unload(t: nat) | Clean(t: nat)
    | StartUnlock(t: nat) | EndUnlock(t: nat, loaded: bool)
    | StartRelease(t: nat) | Add(t: nat)
    | StartGet(t: nat) | Take(t: nat) | LockRead(t: nat) | Store(t: nat) | EndGet(t: nat)
    | Expire(t: nat)

  predicate Enabled(p: Policy, s: State, a: Action) {
    && a.t < |s.threads|
    && var d := s.threads[a.t];
       match a
       case ClearFlag(_) =>
         && d == Idle && (p.overlapsRelease || !Busy(s.threads, Releasing))
         && (p.overlapsUnlock || !Busy(s.threads, Unlocking))
       case LockWrite(_) => d == Locking && CanWrite(s)
       case Unload(_) => d == Unloading
       case Clean(_) => d == Cleaning
       case StartUnlock(_) => d == Idle && CanWrite(s) && (p.overlapsUnlock || !Busy(s.threads, Locking))
       case EndUnlock(_, _) => d == Unlocking
       case StartRelease(_) => d == Idle && s.startedUn
       case Add(_) => d == Releasing
       case StartGet(_) => d == Idle && s.startedUn
       case Take(_) => d == Getting && s.cached > 0
       case LockRead(_) => d == Getting && CanRead(s)
       case Store(_) => d == Making
       case EndGet(_) => d == Making
       case Expire(_) => s.cached > 0
  }

  /** pcache_add keeps at most two objects under a key. */
  function More(n: nat): nat {
    if n < 2 then n + 1 else n
  }

  function Put(s: State, t: nat, d: Doing): State
    requires t < |s.threads|
  {
    s.(threads := s.threads[t := d])
  }

  /**
   * One step. A lock call on a folder that is not started, and an unlock call on one that is, only release the lock. A
   * bucket is cleaned, or added to, under its own lock, and so in one step; entries whose timers fire count as gone.
   */
  function Step(p: Policy, s: State, a: Action): State
    requires Enabled(p, s, a)
  {
    match a
    case ClearFlag(t) => Put(s.(startedUn := false), t, Locking)
    case LockWrite(t) => Put(s, t, Unloading)
    case Unload(t) => if s.startedL then Put(s.(startedL := false), t, Cleaning) else Put(s, t, Idle)
    case Clean(t) => Put(s.(cached := 0), t, Idle)
    case StartUnlock(t) => Put(s, t, Unlocking)
    case EndUnlock(t, loaded) => Put(if loaded && !s.startedL then s.(startedL := true, startedUn := true) else s, t, Idle)
    case StartRelease(t) => Put(s, t, Releasing)
    case Add(t) => Put(s.(cached := More(s.cached)), t, Idle)
    case StartGet(t) => Put(s, t, Getting)
    case Take(t) => Put(s.(cached := s.cached - 1), t, Idle)
    case LockRead(t) => Put(s, t, if s.startedL then Making else Idle)
    case Store(t) => s.(cached := More(s.cached))
    case EndGet(t) => Put(s, t, Idle)
    case Expire(t) => s.(cached := s.cached - 1)
  }

  predicate Initial(s: State) {
    && !s.startedL && !s.startedUn && s.cached == 0
    && forall t :: 0 <= t < |s.threads| ==> s.threads[t] == Idle
  }

  predicate IsRun(p: Policy, s: State, actions: seq<Action>)
    decreases |actions|
  {
    actions == [] || (Enabled(p, s, actions[0]) && IsRun(p, Step(p, s, actions[0]), actions[1..]))
  }

  function Reached(p: Policy, s: State, actions: seq<Action>): State
    requires IsRun(p, s, actions)
    decreases |actions|
  {
    if actions == [] then s else Reached(p, Step(p, s, actions[0]), actions[1..])
  }

  ghost predicate Reachable(p: Policy, s: State) {
    exists s0, actions :: Initial(s0) && IsRun(p, s0, actions) && Reached(p, s0, actions) == s
  }

  /** The folder is locked, no cleaning is under way, and key material is cached. */
  predicate Stray(s: State) {
    !s.startedL && s.cached > 0 && !Busy(s.threads, Cleaning)
  }

  ghost predicate LockedIsEmpty(p: Policy) {
    forall s :: Reachable(p, s) ==> !Stray(s)
  }

  /** A writer of crypto_lock is alone. */
  predicate Exclusive(ts: seq<Doing>) {
    forall t, u :: 0 <= t < |ts| && 0 <= u < |ts| && t != u && ts[t] in {Unloading, Unlocking} ==>
                     ts[u] !in {Unloading, Unlocking, Making}
  }

  /** What holds if no release and no unlock overlaps with a lock call. */
  predicate FlagsOk(s: State) {
    && (s.startedUn ==> s.startedL)
    && (Busy(s.threads, Releasing) || Busy(s.threads, Making) ==> s.startedL)
    && (Busy(s.threads, Locking) || Busy(s.threads, Unloading) ==> !s.startedUn && !Busy(s.threads, Releasing))
    && (Busy(s.threads, Locking) ==> !Busy(s.threads, Unlocking))
    && (!s.startedL && s.cached > 0 ==> Busy(s.threads, Cleaning))
  }

  predicate Inv(s: State) {
    Exclusive(s.threads) && FlagsOk(s)
  }

  lemma BusyPut(ts: seq<Doing>, t: nat, d: Doing)
    requires t < |ts|
    ensures forall e :: e != d && e != ts[t] ==> (Busy(ts[t := d], e) <==> Busy(ts, e))
    ensures forall e :: e != d ==> (Busy(ts[t := d], e) ==> Busy(ts, e))
    ensures Busy(ts, ts[t]) && Busy(ts[t := d], d)
  {
    assert ts[t := d][t] == d;
    forall e | e != d && e != ts[t]
      ensures Busy(ts[t := d], e) <==> Busy(ts, e)
    {
      if u :| 0 <= u < |ts| && ts[u] == e {
        assert ts[t := d][u] == e;
      }
    }
  }

  lemma StepKeeps(p: Policy, s: State, a: Action)
    requires !p.overlapsRelease && !p.overlapsUnlock && Inv(s) && Enabled(p, s, a)
    ensures Inv(Step(p, s, a))
  {
    hide Busy;
    Alone(s.threads, a.t);
    StaysExclusive(p, s, a);
    BusyPut(s.threads, a.t, Step(p, s, a).threads[a.t]);
  }

  /** While one thread has the write lock, no other makes a codec or has the write lock too. */
  lemma Alone(ts: seq<Doing>, t: nat)
    requires Exclusive(ts) && t < |ts|
    ensures ts[t] == Unloading ==> !Busy(ts, Making) && !Busy(ts, Unlocking)
    ensures ts[t] == Unlocking ==> !Busy(ts, Unloading)
  {
  }

  lemma StaysExclusive(p: Policy, s: State, a: Action)
    requires Exclusive(s.threads) && Enabled(p, s, a)
    ensures Exclusive(Step(p, s, a).threads)
  {
    hide Busy, Exclusive;
    PutExclusive(s.threads, a.t, Step(p, s, a).threads[a.t]);
  }

  lemma PutExclusive(ts: seq<Doing>, t: nat, d: Doing)
    requires Exclusive(ts) && t < |ts|
    requires d in {Unloading, Unlocking, Making} && d != ts[t] ==> !Busy(ts, Unloading) && !Busy(ts, Unlocking)
    requires d in {Unloading, Unlocking} && d != ts[t] ==> !Busy(ts, Making)
    ensures Exclusive(ts[t := d])
  {
  }

  lemma {:induction false} RunKeeps(p: Policy, s: State, actions: seq<Action>)
    requires !p.overlapsRelease && !p.overlapsUnlock && Inv(s) && IsRun(p, s, actions)
    ensures Inv(Reached(p, s, actions))
    decreases |actions|
  {
    hide Inv, Step, Enabled;
    if actions == [] {
    } else {
      StepKeeps(p, s, actions[0]);
      RunKeeps(p, Step(p, s, actions[0]), actions[1..]);
    }
  }

  /** Codecs that are given back, and unlocking, kept apart from locking: a locked folder has nothing cached. */
  lemma ApartIsEmpty(p: Policy, s: State)
    requires !p.overlapsRelease && !p.overlapsUnlock && Reachable(p, s)
    ensures !Stray(s) && (s.startedUn ==> s.startedL)
  {
    hide IsRun, Reached;
    var s0, actions :| Initial(s0) && IsRun(p, s0, actions) && Reached(p, s0, actions) == s;
    RunKeeps(p, s0, actions);
  }

  lemma {:induction false} OneMore(p: Policy, s: State, actions: seq<Action>, a: Action)
    requires IsRun(p, s, actions) && Enabled(p, Reached(p, s, actions), a)
    ensures IsRun(p, s, actions + [a]) && Reached(p, s, actions + [a]) == Step(p, Reached(p, s, actions), a)
    decreases |actions|
  {
    hide Step, Enabled;
    if actions == [] {
      assert [] + [a] == [a] && [a][1..] == [];
      assert Reached(p, Step(p, s, a), []) == Step(p, s, a);
    } else {
      OneMore(p, Step(p, s, actions[0]), actions[1..], a);
      assert (actions + [a])[1..] == actions[1..] + [a];
    }
  }

  lemma Next(p: Policy, s: State, a: Action) returns (s2: State)
    requires Reachable(p, s) && Enabled(p, s, a)
    ensures Reachable(p, s2) && s2 == Step(p, s, a)
  {
    hide Step, Enabled, Initial;
    var s0, actions :| Initial(s0) && IsRun(p, s0, actions) && Reached(p, s0, actions) == s;
    OneMore(p, s0, actions, a);
    s2 := Step(p, s, a);
  }

  lemma Start(p: Policy, s: State)
    requires Initial(s)
    ensures Reachable(p, s)
  {
    hide Initial;
    assert IsRun(p, s, []) && Reached(p, s, []) == s;
  }

  /** An idle thread, and one that has the write lock to unlock the folder. */
  lemma Started(p: Policy) returns (s: State)
    ensures Reachable(p, s) && s == State(false, false, 0, [Idle, Unlocking])
  {
    hide Reachable;
    s := State(false, false, 0, [Idle, Idle]);
    Start(p, s);
    s := Next(p, s, StartUnlock(1));
  }

  /** A codec whose release saw the flag before it was cleared is cached after the cleaning. */
  lemma LateReleaseStays(overlapsUnlock: bool) returns (s: State)
    ensures Reachable(Policy(true, overlapsUnlock), s) && s == State(false, false, 1, [Idle, Idle])
  {
    hide Reachable;
    var p := Policy(true, overlapsUnlock);
    s := Started(p);
    s := Next(p, s, EndUnlock(1, true));
    s := Next(p, s, StartRelease(1));
    s := Next(p, s, ClearFlag(0));
    s := Next(p, s, LockWrite(0));
    s := Next(p, s, Unload(0));
    s := Next(p, s, Clean(0));
    s := Next(p, s, Add(1));
  }

  /** Unlocking sets the flag that locking has just cleared; the folder is then locked, and the flag says it is not. */
  lemma FlagOutlivesLock(overlapsRelease: bool) returns (s: State)
    ensures Reachable(Policy(overlapsRelease, true), s) && s == State(false, true, 0, [Idle, Idle])
  {
    hide Reachable;
    var p := Policy(overlapsRelease, true);
    s := Started(p);
    s := Next(p, s, ClearFlag(0));
    s := Next(p, s, EndUnlock(1, true));
    s := Next(p, s, LockWrite(0));
    s := Next(p, s, Unload(0));
    s := Next(p, s, Clean(0));
  }

  /** From then on codecs that are given back are cached, though the folder is locked, and are given out again. */
  lemma LockedGivesCodec(overlapsRelease: bool) returns (s: State, s2: State)
    ensures var p := Policy(overlapsRelease, true); Reachable(p, s) && Stray(s) && Reachable(p, s2)
    ensures s.threads == [Getting, Idle] && s2 == s.(threads := [Idle, Idle], cached := 0)
  {
    hide Reachable;
    var p := Policy(overlapsRelease, true);
    s := FlagOutlivesLock(overlapsRelease);
    s := Next(p, s, StartRelease(1));
    s := Next(p, s, Add(1));
    s := Next(p, s, StartGet(0));
    s2 := Next(p, s, Take(0));
  }

  /** No key material stays cached in a locked folder, in any run, if and only if locking overlaps with neither. */
  lemma LockedIsEmptyExactlyWhen(p: Policy)
    ensures LockedIsEmpty(p) <==> !p.overlapsRelease && !p.overlapsUnlock
  {
    hide Reachable;
    if p.overlapsRelease {
      var s := LateReleaseStays(p.overlapsUnlock);
      assert Stray(s);
    } else if p.overlapsUnlock {
      var s, s2 := LockedGivesCodec(p.overlapsRelease);
      assert Stray(s);
    } else {
      forall s | Reachable(p, s)
        ensures !Stray(s)
      {
        ApartIsEmpty(p, s);
      }
    }
  }
}
