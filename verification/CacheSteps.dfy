/** The timed cache while its calls and timer callbacks run at the same time, one atomic step of one thread after another. */
module CacheSteps {
  import opened Options
  import opened CacheLists
  import opened CacheTable

  type Id = nat

  datatype Node = Node(key: string, hash: Hash, value: Value)

  /** An object, and the key it is added under or asked for by. */
  datatype Keyed = Keyed(key: string, value: Value)

  /** Armed can still be stopped; Committed is in the timer thread's hands; Firing has its callback under way. */
  datatype Timer = Armed | Committed | Firing

  /** A call under way, with what it keeps in local variables; `found` is what pcache_has returns. */
  datatype Job =
    | Get(key: string, h: Hash)
    | Has(key: string, h: Hash, found: bool)
    | Del(key: string, h: Hash)
    | Add(e: Id, h: Hash, maxkeys: nat)
    | Sweep(prefixes: seq<string>, b: nat)
    | Fire(e: Id, h: Hash)

  /** Where a thread is: what it will do in its next step. */
  datatype PC =
    | Idle
    | Lock(job: Job)
    | Scan(job: Job, cur: Option<Id>, n: nat)
    | Unlink(job: Job, e: Id, next: Option<Id>)
    | Hold(job: Job, e: Id, next: Option<Id>)
    | Loose(job: Job, e: Id)
    | Link(job: Job)
    | Register(job: Job)
    | Release(job: Job)

  /**
   * `hash` is compute_hash, whose seed is fixed. An object is counted in `handed` under the key that it was asked for
   * by, and in `added` and `freed` under the key of its entry.
   */
  datatype State = State(
    hash: string -> Hash,
    heap: map<Id, Node>, lists: seq<seq<Id>>, timers: map<Id, Timer>, locks: seq<Option<nat>>, pcs: seq<PC>,
    added: multiset<Keyed>, handed: multiset<Keyed>, freed: multiset<Keyed>)

  function BucketOf(job: Job): nat {
    if job.Sweep? then job.b else Bucket(job.h)
  }

  function LockFor(job: Job): nat {
    if job.Sweep? then LockOfBucket(job.b) else LockOf(job.h)
  }

  function First(list: seq<Id>): Option<Id> {
    if list == [] then None else Some(list[0])
  }

  /** The entry after e. */
  function After(list: seq<Id>, e: Id): (r: Option<Id>) {
    if list == [] then None
    else if list[0] == e then First(list[1..])
    else After(list[1..], e)
  }

  /** psync_list_del */
  function Without(list: seq<Id>, e: Id): seq<Id> {
    if list == [] then []
    else if list[0] == e then list[1..]
    else [list[0]] + Without(list[1..], e)
  }

  function ListOf(s: State, job: Job): seq<Id> {
    if BucketOf(job) < |s.lists| then s.lists[BucketOf(job)] else []
  }

  /** What a step reads from an entry; the invariant shows that the entry is always there. */
  function Content(s: State, e: Id): Node {
    if e in s.heap then s.heap[e] else Node("", 0, 0)
  }

  function Move(s: State, t: nat, pc: PC): State
    requires t < |s.pcs|
  {
    s.(pcs := s.pcs[t := pc])
  }

  function WithLock(s: State, l: nat, owner: Option<nat>): State
    requires l < |s.locks|
  {
    s.(locks := s.locks[l := owner])
  }

  function WithList(s: State, b: nat, list: seq<Id>): State
    requires b < |s.lists|
  {
    s.(lists := s.lists[b := list])
  }

  /** The steps of a call, by where it is. */
  function AfterLock(s: State, job: Job): PC {
    match job
    case Fire(e, _) => Unlink(job, e, None)
    case Add(_, _, maxkeys) => if maxkeys == 0 then Link(job) else Scan(job, First(ListOf(s, job)), 0)
    case _ => Scan(job, First(ListOf(s, job)), 0)
  }

  function AtEnd(job: Job): PC {
    if job.Add? then Link(job) else Release(job)
  }

  /** Does the loop body apply to this entry? */
  predicate Hits(s: State, job: Job, c: Id) {
    var he := Content(s, c);
    match job
    case Get(key, h) => he.hash == h && he.key == key
    case Has(key, h, _) => he.hash == h && he.key == key
    case Del(key, h) => he.hash == h && he.key == key
    case Add(e, h, _) => he.hash == h && he.key == Content(s, e).key
    case Sweep(prefixes, _) => Matches(he.key, prefixes)
    case Fire(_, _) => false
  }

  /** The jobs that call ptimer_stop on the entries they hit. */
  predicate Stops(job: Job) {
    job.Get? || job.Del? || job.Sweep?
  }

  predicate CanStop(s: State, c: Id) {
    c in s.timers && s.timers[c] == Armed
  }

  /** One turn of a search loop, when there is an entry to look at. */
  function ScanStep(s: State, t: nat, job: Job, c: Id, n: nat): State
    requires t < |s.pcs|
  {
    var next := After(ListOf(s, job), c);
    if !Hits(s, job, c) then Move(s, t, Scan(job, next, n))
    else if job.Has? then Move(s, t, Release(job.(found := true)))
    else if job.Add? then
      if n + 1 == job.maxkeys then Move(s, t, Hold(job, job.e, None)) else Move(s, t, Scan(job, next, n + 1))
    else if CanStop(s, c) then Move(s.(timers := s.timers - {c}), t, Unlink(job, c, next))
    else Move(s, t, Scan(job, next, n))
  }

  /** Hands the object to the caller of pcache_get, or to its free callback; frees the entry, and the timer that fired. */
  function Dispose(s: State, job: Job, e: Id): State {
    var n := Content(s, e);
    var s1 := s.(heap := s.heap - {e}, timers := s.timers - {e});
    if job.Get? then s1.(handed := s1.handed + multiset{Keyed(job.key, n.value)})
    else s1.(freed := s1.freed + multiset{Keyed(n.key, n.value)})
  }

  function AfterRelease(job: Job): PC {
    if job.Sweep? && job.b + 1 < BUCKETS then Lock(job.(b := job.b + 1)) else Idle
  }

  function AfterLoose(job: Job): PC {
    if job.Del? then Lock(job) else Idle
  }

  predicate Ready(s: State, t: nat) {
    && t < |s.pcs| && s.pcs[t] != Idle
    && LockFor(s.pcs[t].job) < |s.locks| && BucketOf(s.pcs[t].job) < |s.lists|
    && (s.pcs[t].Lock? ==> s.locks[LockFor(s.pcs[t].job)] == None)
    && (s.pcs[t].Link? || s.pcs[t].Register? ==> s.pcs[t].job.Add?)
  }

  /** The next step of thread t. */
  function Advance(s: State, t: nat): State
    requires Ready(s, t)
  {
    var l, b := LockFor(s.pcs[t].job), BucketOf(s.pcs[t].job);
    match s.pcs[t]
    case Lock(job) => Move(WithLock(s, l, Some(t)), t, AfterLock(s, job))
    case Scan(job, None, _) => Move(s, t, AtEnd(job))
    case Scan(job, Some(c), n) => ScanStep(s, t, job, c, n)
    case Unlink(job, e, next) => Move(WithList(s, b, Without(s.lists[b], e)), t, Hold(job, e, next))
    case Hold(job, e, next) =>
      if job.Sweep? then Move(Dispose(s, job, e), t, Scan(job, next, 0))
      else Move(WithLock(s, l, None), t, Loose(job, e))
    case Loose(job, e) => Move(Dispose(s, job, e), t, AfterLoose(job))
    case Link(job) => Move(WithList(s, b, [job.e] + s.lists[b]), t, Register(job))
    case Register(job) => Move(s.(timers := s.timers[job.e := Armed]), t, Release(job))
    case Release(job) => Move(WithLock(s, l, None), t, AfterRelease(job))
  }

  /** Everything that can happen next. */
  datatype Action =
    | Call(t: nat, job: Job)
    | CallAdd(t: nat, e: Id, node: Node, maxkeys: nat)
    | Commit(e: Id)
    | Pick(t: nat, e: Id)
    | Run(t: nat)

  predicate Enabled(s: State, a: Action) {
    match a
    case Call(t, job) =>
      && t < |s.pcs| && s.pcs[t] == Idle && !job.Add? && !job.Fire?
      && (if job.Sweep? then job.b == 0 else job.h == s.hash(job.key) && (job.Has? ==> !job.found))
    case CallAdd(t, e, node, _) => t < |s.pcs| && s.pcs[t] == Idle && e !in s.heap && node.hash == s.hash(node.key)
    case Commit(e) => e in s.timers && s.timers[e] == Armed
    case Pick(t, e) => t < |s.pcs| && s.pcs[t] == Idle && e in s.timers && s.timers[e] == Committed && e in s.heap
    case Run(t) => Ready(s, t)
  }

  /** malloc may hand out any address that is not in use, so addresses come back. */
  function Step(s: State, a: Action): State
    requires Enabled(s, a)
  {
    match a
    case Call(t, job) => Move(s, t, Lock(job))
    case CallAdd(t, e, node, maxkeys) =>
      Move(s.(heap := s.heap[e := node], added := s.added + multiset{Keyed(node.key, node.value)}), t, Lock(Add(e, node.hash, maxkeys)))
    case Commit(e) => s.(timers := s.timers[e := Committed])
    case Pick(t, e) => Move(s.(timers := s.timers[e := Firing]), t, Lock(Fire(e, s.heap[e].hash)))
    case Run(t) => Advance(s, t)
  }

  predicate Initial(s: State) {
    && s.heap == map[] && s.timers == map[]
    && |s.lists| == BUCKETS && (forall b :: 0 <= b < BUCKETS ==> s.lists[b] == [])
    && |s.locks| == LOCKS && (forall l :: 0 <= l < LOCKS ==> s.locks[l] == None)
    && (forall t :: 0 <= t < |s.pcs| ==> s.pcs[t] == Idle)
    && s.added == s.handed == s.freed == multiset{}
  }

  /** A run: every action is enabled where it happens. */
  predicate IsRun(s: State, actions: seq<Action>)
    decreases |actions|
  {
    actions == [] || (Enabled(s, actions[0]) && IsRun(Step(s, actions[0]), actions[1..]))
  }

  function Reached(s: State, actions: seq<Action>): State
    requires IsRun(s, actions)
    decreases |actions|
  {
    if actions == [] then s else Reached(Step(s, actions[0]), actions[1..])
  }
}
