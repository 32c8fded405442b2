/** The two locks of the crypto folder: crypto_lock, and the lock of the database, which threads take in both orders. */
module CryptoLocks {
  import opened Options

  datatype Held = Free | Reading | Writing

  datatype Want = CryptoRead | CryptoWrite | SqlRead | SqlWrite

  /**
   * A user reads under crypto_lock and queries the database, in either order; a changer is inside pcryptofolder_unlock
   * or pcryptofolder_lock. `want` is the lock it is waiting for.
   */
  datatype Thread = Thread(changer: bool, crypto: Held, sql: Held, want: Option<Want>, done: bool)

  datatype RwLock = RwLock(rcount: nat, wcount: nat)

  /**
   * How crypto_lock treats readers that come after a waiting writer, how unlocking takes the database lock, and whether
   * it has to connect: if not all keys are stored they are downloaded under the write lock, and if no connection is
   * pooled a new one is made, which reads known addresses from the database and saves the resolved ones there.
   */
  datatype Policy = Policy(prefersReaders: bool, tries: bool, connects: bool)

  datatype State = State(threads: seq<Thread>, crypto: RwLock, sql: RwLock)

  predicate Waiting(ts: seq<Thread>, w: Want) {
    exists t :: 0 <= t < |ts| && ts[t].want == Some(w)
  }

  /** May the lock be had now? The database lock lets no reader overtake a waiting writer. */
  predicate Grantable(p: Policy, s: State, w: Want) {
    match w
    case CryptoRead => s.crypto.wcount == 0 && (p.prefersReaders || !Waiting(s.threads, CryptoWrite))
    case CryptoWrite => s.crypto.wcount == 0 && s.crypto.rcount == 0
    case SqlRead => s.sql.wcount == 0 && !Waiting(s.threads, SqlWrite)
    case SqlWrite => s.sql.wcount == 0 && s.sql.rcount == 0
  }

  /**
   * What a thread may wait for, given what it holds. A changer that has released crypto_lock may use the database like
   * anybody else: unlocking saves the keys it downloaded.
   */
  predicate MayAsk(p: Policy, th: Thread, w: Want) {
    match w
    case CryptoRead => !th.changer && th.crypto == Free
    case CryptoWrite => th.changer && th.crypto == Free && th.sql == Free
    case SqlRead => th.sql == Free && (th.changer && th.crypto == Writing ==> p.connects)
    case SqlWrite => th.sql == Free && (th.changer && th.crypto == Writing ==> !p.tries || p.connects)
  }

  datatype Action =
    | Ask(t: nat, w: Want)
    | Grant(t: nat)
    | Try(t: nat)
    | DropCrypto(t: nat)
    | DropSql(t: nat)
    | Finish(t: nat)

  predicate Enabled(p: Policy, s: State, a: Action) {
    && a.t < |s.threads|
    && var th := s.threads[a.t];
       && !th.done
       && match a
          case Ask(_, w) => th.want == None && MayAsk(p, th, w)
          case Grant(_) => th.want.Some? && Grantable(p, s, th.want.value)
          case Try(_) => th.want == None && th.changer && th.crypto == Writing && th.sql == Free && p.tries
          case DropCrypto(_) => th.want == None && th.crypto != Free
          case DropSql(_) => th.want == None && th.sql != Free
          case Finish(_) => th.want == None && th.crypto == Free && th.sql == Free
  }

  function Granted(th: Thread, w: Want): Thread {
    match w
    case CryptoRead => th.(want := None, crypto := Reading)
    case CryptoWrite => th.(want := None, crypto := Writing)
    case SqlRead => th.(want := None, sql := Reading)
    case SqlWrite => th.(want := None, sql := Writing)
  }

  function Took(l: RwLock, h: Held): RwLock {
    match h
    case Free => l
    case Reading => l.(rcount := l.rcount + 1)
    case Writing => l.(wcount := l.wcount + 1)
  }

  function Gave(l: RwLock, h: Held): RwLock {
    match h
    case Free => l
    case Reading => if l.rcount > 0 then l.(rcount := l.rcount - 1) else l
    case Writing => if l.wcount > 0 then l.(wcount := l.wcount - 1) else l
  }

  function Put(s: State, t: nat, th: Thread): State
    requires t < |s.threads|
  {
    s.(threads := s.threads[t := th])
  }

  /** One step. A failed trylock drops crypto_lock too, and the changer will ask for it again. */
  function Step(p: Policy, s: State, a: Action): State
    requires Enabled(p, s, a)
  {
    var th := s.threads[a.t];
    match a
    case Ask(t, w) => Put(s, t, th.(want := Some(w)))
    case Grant(t) =>
      var now := Granted(th, th.want.value);
      if th.want.value.CryptoRead? || th.want.value.CryptoWrite?
      then Put(s.(crypto := Took(s.crypto, now.crypto)), t, now)
      else Put(s.(sql := Took(s.sql, now.sql)), t, now)
    case Try(t) =>
      if s.sql.wcount == 0 && s.sql.rcount == 0 then Put(s.(sql := Took(s.sql, Writing)), t, th.(sql := Writing))
      else Put(s.(crypto := Gave(s.crypto, th.crypto)), t, th.(crypto := Free))
    case DropCrypto(t) => Put(s.(crypto := Gave(s.crypto, th.crypto)), t, th.(crypto := Free))
    case DropSql(t) => Put(s.(sql := Gave(s.sql, th.sql)), t, th.(sql := Free))
    case Finish(t) => Put(s, t, th.(done := true))
  }

  /** Unlocking comes out of its attempt with both locks, or with none. */
  lemma TryTakesBothOrNone(p: Policy, s: State, t: nat)
    requires Inv(p, s) && Enabled(p, s, Try(t))
    ensures var th, s2 := Step(p, s, Try(t)).threads[t], Step(p, s, Try(t));
            if Count(s.threads, SqlRead) + Count(s.threads, SqlWrite) == 0 then
              th.crypto == Writing && th.sql == Writing && s2.crypto == s.crypto
            else
              th.crypto == Free && th.sql == Free && s2.crypto == RwLock(0, 0) && s2.sql == s.sql
  {
    hide Count;
    CountsPut(s.threads, t, s.threads[t]);
  }

  /**
   * Readers do not overtake: the database is not given to a new reader while anybody waits to write to it, and under a
   * policy that does not prefer readers neither is crypto_lock.
   */
  lemma ReadersWait(p: Policy, s: State, t: nat, u: nat)
    requires t < |s.threads| && u < |s.threads| && Enabled(p, s, Grant(t))
    ensures s.threads[t].want == Some(SqlRead) ==> s.threads[u].want != Some(SqlWrite)
    ensures s.threads[t].want == Some(CryptoRead) && s.threads[u].want == Some(CryptoWrite) ==> p.prefersReaders
  {
    assert s.threads[u].want.Some? ==> Waiting(s.threads, s.threads[u].want.value);
  }

  predicate Initial(s: State) {
    && s.crypto == RwLock(0, 0) && s.sql == RwLock(0, 0)
    && forall t :: 0 <= t < |s.threads| ==> s.threads[t] == Thread(s.threads[t].changer, Free, Free, None, false)
  }

  predicate IsRun(p: Policy, s: State, actions: seq<Action>)
    decreases |actions|
  {
    actions == [] || (Enabled(p, s, actions[0]) && IsRun(p, Step(p, s, actions[0]), actions[1..]))
  }

  function Reached(p: Policy, s: State, actions: seq<Action>): State
    requires IsRun(p, s, actions)
    decreases |actions|
  {
    if actions == [] then s else Reached(p, Step(p, s, actions[0]), actions[1..])
  }

  ghost predicate Reachable(p: Policy, s: State) {
    exists s0, actions :: Initial(s0) && IsRun(p, s0, actions) && Reached(p, s0, actions) == s
  }

  /** Somebody has not finished, and nothing can happen. */
  ghost predicate Stuck(p: Policy, s: State) {
    && (exists t :: 0 <= t < |s.threads| && !s.threads[t].done)
    && forall a :: !Enabled(p, s, a)
  }

  ghost predicate DeadlockFree(p: Policy) {
    forall s :: Reachable(p, s) ==> !Stuck(p, s)
  }

  /** How many threads hold each lock in each way. */
  function Count(ts: seq<Thread>, w: Want): nat {
    if ts == [] then 0 else Count(ts[1..], w) + if Has(ts[0], w) then 1 else 0
  }

  predicate Has(th: Thread, w: Want) {
    match w
    case CryptoRead => th.crypto == Reading
    case CryptoWrite => th.crypto == Writing
    case SqlRead => th.sql == Reading
    case SqlWrite => th.sql == Writing
  }

  lemma {:induction false} CountPut(ts: seq<Thread>, t: nat, th: Thread, w: Want)
    requires t < |ts|
    ensures Count(ts[t := th], w) + (if Has(ts[t], w) then 1 else 0) == Count(ts, w) + if Has(th, w) then 1 else 0
  {
    if t == 0 {
      assert ts[t := th][1..] == ts[1..];
    } else {
      CountPut(ts[1..], t - 1, th, w);
      assert ts[t := th][1..] == ts[1..][t - 1 := th];
    }
  }

  lemma {:induction false} SomeoneHas(ts: seq<Thread>, w: Want)
    requires Count(ts, w) > 0
    ensures exists t :: 0 <= t < |ts| && Has(ts[t], w)
  {
    if Has(ts[0], w) {
    } else {
      SomeoneHas(ts[1..], w);
      var t :| 0 <= t < |ts[1..]| && Has(ts[1..][t], w);
      assert Has(ts[t + 1], w);
    }
  }

  lemma {:induction false} CountsHolder(ts: seq<Thread>, t: nat, w: Want)
    requires t < |ts| && Has(ts[t], w)
    ensures Count(ts, w) > 0
  {
    if t == 0 {
    } else {
      CountsHolder(ts[1..], t - 1, w);
    }
  }

  lemma {:induction false} NobodyHas(ts: seq<Thread>, w: Want)
    requires forall t :: 0 <= t < |ts| ==> !Has(ts[t], w)
    ensures Count(ts, w) == 0
  {
    if ts == [] {
    } else {
      NobodyHas(ts[1..], w);
    }
  }

  /** A lock has one writer, or any number of readers. */
  predicate LockOk(l: RwLock) {
    l.wcount <= 1 && (l.wcount == 0 || l.rcount == 0)
  }

  /** What a thread can hold, and be waiting for. */
  predicate ThreadOk(p: Policy, th: Thread) {
    && (th.changer ==> th.crypto != Reading)
    && (!th.changer ==> th.crypto != Writing)
    && (th.want.Some? ==> MayAsk(p, th, th.want.value) && !th.done)
    && (th.done ==> th.crypto == Free && th.sql == Free)
  }

  predicate Inv(p: Policy, s: State) {
    && LockOk(s.crypto) && LockOk(s.sql)
    && s.crypto == RwLock(Count(s.threads, CryptoRead), Count(s.threads, CryptoWrite))
    && s.sql == RwLock(Count(s.threads, SqlRead), Count(s.threads, SqlWrite))
    && forall t :: 0 <= t < |s.threads| ==> ThreadOk(p, s.threads[t])
  }

  lemma CountsPut(ts: seq<Thread>, t: nat, th: Thread)
    requires t < |ts|
    ensures forall w :: Count(ts[t := th], w) + (if Has(ts[t], w) then 1 else 0) == Count(ts, w) + if Has(th, w) then 1 else 0
    ensures forall w :: Has(ts[t], w) ==> Count(ts, w) > 0
  {
    forall w
      ensures Count(ts[t := th], w) + (if Has(ts[t], w) then 1 else 0) == Count(ts, w) + if Has(th, w) then 1 else 0
    {
      CountPut(ts, t, th, w);
    }
    forall w | Has(ts[t], w)
      ensures Count(ts, w) > 0
    {
      CountsHolder(ts, t, w);
    }
  }

  lemma StepKeeps(p: Policy, s: State, a: Action)
    requires Inv(p, s) && Enabled(p, s, a)
    ensures Inv(p, Step(p, s, a))
  {
    hide Count, Waiting;
    var s2 := Step(p, s, a);
    CountsPut(s.threads, a.t, s2.threads[a.t]);
  }

  lemma Begins(p: Policy, s: State)
    requires Initial(s)
    ensures Inv(p, s)
  {
    forall w
      ensures Count(s.threads, w) == 0
    {
      NobodyHas(s.threads, w);
    }
  }

  lemma {:induction false} RunKeeps(p: Policy, s: State, actions: seq<Action>)
    requires Inv(p, s) && IsRun(p, s, actions)
    ensures Inv(p, Reached(p, s, actions))
    decreases |actions|
  {
    hide Inv, Step, Enabled;
    if actions == [] {
    } else {
      StepKeeps(p, s, actions[0]);
      RunKeeps(p, Step(p, s, actions[0]), actions[1..]);
    }
  }

  lemma ReachableIsOk(p: Policy, s: State)
    requires Reachable(p, s)
    ensures Inv(p, s)
  {
    hide Inv;
    var s0, actions :| Initial(s0) && IsRun(p, s0, actions) && Reached(p, s0, actions) == s;
    Begins(p, s0);
    RunKeeps(p, s0, actions);
  }

  ghost predicate CanMove(p: Policy, s: State) {
    exists a :: Enabled(p, s, a)
  }

  /** A thread that waits for nothing can always go on. */
  lemma FreeThreadMoves(p: Policy, s: State, t: nat)
    requires t < |s.threads| && !s.threads[t].done && s.threads[t].want == None
    ensures CanMove(p, s)
  {
    var th := s.threads[t];
    if th.crypto != Free {
      assert Enabled(p, s, DropCrypto(t));
    } else if th.sql != Free {
      assert Enabled(p, s, DropSql(t));
    } else {
      assert Enabled(p, s, Finish(t));
    }
  }

  lemma GrantMoves(p: Policy, s: State, t: nat)
    requires t < |s.threads| && !s.threads[t].done && s.threads[t].want.Some? && Grantable(p, s, s.threads[t].want.value)
    ensures CanMove(p, s)
  {
    assert Enabled(p, s, Grant(t));
  }

  /** Whoever holds crypto_lock for writing waits for nothing, so nobody who waits to read can be shut out for good. */
  lemma WriterMoves(p: Policy, s: State)
    requires Inv(p, s) && p.tries && !p.connects && s.crypto.wcount > 0
    ensures CanMove(p, s)
  {
    SomeoneHas(s.threads, CryptoWrite);
    var t :| 0 <= t < |s.threads| && Has(s.threads[t], CryptoWrite);
    FreeThreadMoves(p, s, t);
  }

  /** Whoever holds the database lock waits for nothing but to read under crypto_lock. */
  lemma SqlHolderMoves(p: Policy, s: State, t: nat)
    requires Inv(p, s) && p.prefersReaders && s.crypto.wcount == 0
    requires t < |s.threads| && s.threads[t].sql != Free
    ensures CanMove(p, s)
  {
    if s.threads[t].want == None {
      FreeThreadMoves(p, s, t);
    } else {
      GrantMoves(p, s, t);
    }
  }

  lemma SqlIsFree(p: Policy, s: State)
    requires Inv(p, s) && p.prefersReaders && s.crypto.wcount == 0 && !CanMove(p, s)
    ensures s.sql == RwLock(0, 0)
    ensures !Waiting(s.threads, SqlWrite)
  {
    hide CanMove, Waiting;
    forall t | 0 <= t < |s.threads|
      ensures s.threads[t].sql == Free
    {
      if s.threads[t].sql != Free {
        SqlHolderMoves(p, s, t);
      }
    }
    NobodyHas(s.threads, SqlRead);
    NobodyHas(s.threads, SqlWrite);
    if Waiting(s.threads, SqlWrite) {
      WaiterMoves(p, s);
    }
  }

  lemma WaiterMoves(p: Policy, s: State)
    requires Inv(p, s) && s.sql == RwLock(0, 0) && Waiting(s.threads, SqlWrite)
    ensures CanMove(p, s)
  {
    var t :| 0 <= t < |s.threads| && s.threads[t].want == Some(SqlWrite);
    GrantMoves(p, s, t);
  }

  lemma SomeThreadMoves(p: Policy, s: State, t: nat)
    requires Inv(p, s) && p.prefersReaders && p.tries && !p.connects && t < |s.threads| && !s.threads[t].done
    ensures CanMove(p, s)
  {
    hide CanMove, Waiting, Count;
    if !CanMove(p, s) {
      if s.crypto.wcount > 0 {
        WriterMoves(p, s);
      }
      SqlIsFree(p, s);
      forall u | 0 <= u < |s.threads|
        ensures !Has(s.threads[u], CryptoRead)
      {
        if s.threads[u].crypto == Reading {
          OneMoves(p, s, u);
        }
      }
      NobodyHas(s.threads, CryptoRead);
      OneMoves(p, s, t);
    }
  }

  /** With no lock in the way, an unfinished thread can go on. */
  lemma OneMoves(p: Policy, s: State, t: nat)
    requires t < |s.threads| && ThreadOk(p, s.threads[t]) && !s.threads[t].done && p.prefersReaders
    requires s.crypto.wcount == 0 && s.sql == RwLock(0, 0) && !Waiting(s.threads, SqlWrite)
    requires s.threads[t].crypto == Free ==> s.crypto.rcount == 0 || s.threads[t].want != Some(CryptoWrite)
    ensures CanMove(p, s)
  {
    hide CanMove, Waiting;
    if s.threads[t].want == None {
      FreeThreadMoves(p, s, t);
    } else {
      GrantMoves(p, s, t);
    }
  }

  /** Unlocking that need not connect cannot deadlock with the threads that read, whatever they do and however many. */
  lemma UnlockCannotDeadlock(p: Policy)
    requires p.prefersReaders && p.tries && !p.connects
    ensures DeadlockFree(p)
  {
    hide Inv, Enabled;
    forall s | Reachable(p, s)
      ensures !Stuck(p, s)
    {
      ReachableIsOk(p, s);
      if t :| 0 <= t < |s.threads| && !s.threads[t].done {
        SomeThreadMoves(p, s, t);
      }
    }
  }

  lemma {:induction false} OneMore(p: Policy, s: State, actions: seq<Action>, a: Action)
    requires IsRun(p, s, actions) && Enabled(p, Reached(p, s, actions), a)
    ensures IsRun(p, s, actions + [a]) && Reached(p, s, actions + [a]) == Step(p, Reached(p, s, actions), a)
    decreases |actions|
  {
    hide Step, Enabled;
    if actions == [] {
      assert [] + [a] == [a] && [a][1..] == [];
      assert Reached(p, Step(p, s, a), []) == Step(p, s, a);
    } else {
      OneMore(p, Step(p, s, actions[0]), actions[1..], a);
      assert (actions + [a])[1..] == actions[1..] + [a];
    }
  }

  lemma Next(p: Policy, s: State, a: Action) returns (s2: State)
    requires Reachable(p, s) && Enabled(p, s, a)
    ensures Reachable(p, s2) && s2 == Step(p, s, a)
  {
    hide Step, Enabled, Initial;
    var s0, actions :| Initial(s0) && IsRun(p, s0, actions) && Reached(p, s0, actions) == s;
    OneMore(p, s0, actions, a);
    s2 := Step(p, s, a);
  }

  lemma Start(p: Policy, s: State)
    requires Initial(s)
    ensures Reachable(p, s)
  {
    hide Initial;
    assert IsRun(p, s, []) && Reached(p, s, []) == s;
  }

  const USER: Thread := Thread(false, Free, Free, None, false)
  const CHANGER: Thread := Thread(true, Free, Free, None, false)

  /** A user that reads under crypto_lock, and a second one that has the database for itself. */
  lemma TwoUsers(p: Policy) returns (s: State)
    ensures Reachable(p, s)
    ensures s == State([USER.(crypto := Reading), USER.(sql := Writing), CHANGER], RwLock(1, 0), RwLock(0, 1))
  {
    hide Reachable;
    s := State([USER, USER, CHANGER], RwLock(0, 0), RwLock(0, 0));
    Start(p, s);
    s := Next(p, s, Ask(0, CryptoRead));
    s := Next(p, s, Grant(0));
    s := Next(p, s, Ask(1, SqlWrite));
    s := Next(p, s, Grant(1));
  }

  /** A user may take both locks, in either order, and the database to read or to write. */
  lemma UsersTakeBoth(p: Policy, write: bool, cryptoFirst: bool) returns (s: State)
    ensures Reachable(p, s) && |s.threads| == 1 && !s.threads[0].changer
    ensures s.threads[0].crypto == Reading && s.threads[0].sql == if write then Writing else Reading
  {
    hide Reachable;
    var sql := if write then SqlWrite else SqlRead;
    s := State([USER], RwLock(0, 0), RwLock(0, 0));
    Start(p, s);
    s := Next(p, s, Ask(0, if cryptoFirst then CryptoRead else sql));
    s := Next(p, s, Grant(0));
    s := Next(p, s, Ask(0, if cryptoFirst then sql else CryptoRead));
    s := Next(p, s, Grant(0));
  }

  /**
   * With a lock that holds new readers back for a waiting writer, the users wait for each other across the two locks:
   * one reads under crypto_lock and waits for the database, the other has the database and waits to read.
   */
  lemma WriterPreferenceDeadlocks(tries: bool, connects: bool) returns (s: State)
    ensures Reachable(Policy(false, tries, connects), s) && Stuck(Policy(false, tries, connects), s)
  {
    hide Reachable;
    var p := Policy(false, tries, connects);
    s := TwoUsers(p);
    s := Next(p, s, Ask(2, CryptoWrite));
    s := Next(p, s, Ask(0, SqlRead));
    s := Next(p, s, Ask(1, CryptoRead));
    assert s.threads[2].want == Some(CryptoWrite) && !s.threads[2].done;
  }

  /** A user that reads the database, and a changer that has the write lock. */
  lemma LockedBoth(p: Policy) returns (s: State)
    ensures Reachable(p, s)
    ensures s == State([USER.(sql := Reading), CHANGER.(crypto := Writing)], RwLock(0, 1), RwLock(1, 0))
  {
    hide Reachable;
    s := State([USER, CHANGER], RwLock(0, 0), RwLock(0, 0));
    Start(p, s);
    s := Next(p, s, Ask(1, CryptoWrite));
    s := Next(p, s, Grant(1));
    if p.tries {
      s := Next(p, s, Try(1));
      s := Next(p, s, DropSql(1));
    }
    s := Next(p, s, Ask(0, SqlRead));
    s := Next(p, s, Grant(0));
  }

  /** Each has one lock and waits for the other: the user wants to know whether the folder is unlocked. */
  lemma StuckAtSql(p: Policy) returns (s: State)
    requires !p.tries || p.connects
    ensures Reachable(p, s) && Stuck(p, s)
  {
    hide Reachable;
    s := LockedBoth(p);
    s := Next(p, s, Ask(0, CryptoRead));
    s := Next(p, s, Ask(1, SqlWrite));
    assert !s.threads[0].done;
  }

  /** Waiting for the database under the write lock, instead of trying, deadlocks with a user that reads the database. */
  lemma WaitingForSqlDeadlocks(prefersReaders: bool, connects: bool) returns (s: State)
    ensures Reachable(Policy(prefersReaders, false, connects), s) && Stuck(Policy(prefersReaders, false, connects), s)
  {
    hide Reachable, Stuck;
    s := StuckAtSql(Policy(prefersReaders, false, connects));
  }

  /** So does connecting: the database lock was tried and given back, but a new address is saved under the write lock. */
  lemma ConnectingDeadlocks(prefersReaders: bool, tries: bool) returns (s: State)
    ensures Reachable(Policy(prefersReaders, tries, true), s) && Stuck(Policy(prefersReaders, tries, true), s)
  {
    hide Reachable, Stuck;
    s := StuckAtSql(Policy(prefersReaders, tries, true));
  }

  /** The argument in pcryptofolder_unlock needs all three: concurrent readers, trying, and keys at hand. */
  lemma DeadlockFreeExactlyWhen(p: Policy)
    ensures DeadlockFree(p) <==> p.prefersReaders && p.tries && !p.connects
  {
    hide Reachable, Stuck;
    if !p.prefersReaders {
      var s := WriterPreferenceDeadlocks(p.tries, p.connects);
    } else if !p.tries {
      var s := WaitingForSqlDeadlocks(p.prefersReaders, p.connects);
    } else if p.connects {
      var s := ConnectingDeadlocks(p.prefersReaders, p.tries);
    } else {
      UnlockCannotDeadlock(p);
    }
  }
}
