/** The binary result format: its grammar, what a message means, and how much room its value takes. */
module ApiFormat {

  type octet = n: nat | n < 256
  type octets = seq<octet>

  const RPARAM_STR1: nat := 0
  const RPARAM_STR4: nat := 3
  const RPARAM_RSTR1: nat := 4
  const RPARAM_RSTR4: nat := 7
  const RPARAM_NUM1: nat := 8
  const RPARAM_NUM8: nat := 15
  const RPARAM_HASH: nat := 16
  const RPARAM_ARRAY: nat := 17
  const RPARAM_BFALSE: nat := 18
  const RPARAM_BTRUE: nat := 19
  const RPARAM_DATA: nat := 20
  const SHORT_STR: nat := 100
  const SHORT_RSTR: nat := 150
  const SMALL_NUM: nat := 200
  const RPARAM_END: nat := 255

  /** The syntax of a message. The items of a hash are its keys and values in turn. */
  datatype Tree =
    | Str(s: octets)
    | Ref(id: nat)
    | Num(n: nat)
    | Small(n: nat)
    | Bool(b: bool)
    | Arr(items: seq<Tree>)
    | Hash(items: seq<Tree>)
    | Data(n: nat)

  /** What a message means: references are replaced by the strings they stand for. */
  datatype Value =
    | VStr(s: octets)
    | VNum(n: nat)
    | VBool(b: bool)
    | VArr(items: seq<Value>)
    | VHash(pairs: seq<(octets, Value)>)
    | VData(n: nat)

  /** Reading either succeeds, up to `next` and with `strings` strings registered, or is refused, or leaves the message. */
  datatype Outcome<T> = Parsed(v: T, next: nat, strings: nat) | Refused | PastEnd

  /** A little-endian number. */
  function FromLe(s: octets): nat {
    if s == [] then 0 else s[0] + 256 * FromLe(s[1..])
  }

  /** What a type byte announces: how many bytes of length or number follow it, or a value of its own. */
  datatype Tag =
    | StrTag(width: nat) | ShortStr(len: nat)
    | RefTag(width: nat) | ShortRef(id: nat)
    | NumTag(width: nat) | SmallNum(n: nat)
    | BoolTag(b: bool) | ArrTag | HashTag | DataTag | BadTag

  function TagOf(b: octet): (t: Tag)
    ensures t.StrTag? || t.RefTag? ==> 1 <= t.width <= 4
    ensures t.NumTag? ==> 1 <= t.width <= 8
    ensures b == RPARAM_END ==> t == BadTag
  {
    if SHORT_STR <= b < SHORT_STR + 50 then ShortStr(b - SHORT_STR)
    else if RPARAM_STR1 <= b <= RPARAM_STR4 then StrTag(b - RPARAM_STR1 + 1)
    else if RPARAM_RSTR1 <= b <= RPARAM_RSTR4 then RefTag(b - RPARAM_RSTR1 + 1)
    else if SHORT_RSTR <= b < SHORT_RSTR + 50 then ShortRef(b - SHORT_RSTR)
    else if RPARAM_NUM1 <= b <= RPARAM_NUM8 then NumTag(b - RPARAM_NUM1 + 1)
    else if SMALL_NUM <= b < SMALL_NUM + 20 then SmallNum(b - SMALL_NUM)
    else if b == RPARAM_BTRUE then BoolTag(true)
    else if b == RPARAM_BFALSE then BoolTag(false)
    else if b == RPARAM_ARRAY then ArrTag
    else if b == RPARAM_HASH then HashTag
    else if b == RPARAM_DATA then DataTag
    else BadTag
  }

  function ParseString(d: octets, pos: nat, len: nat, strings: nat): Outcome<Tree> {
    if pos + len > |d| then Refused else Parsed(Str(d[pos..pos + len]), pos + len, strings + 1)
  }

  function ParseRef(id: nat, pos: nat, strings: nat): Outcome<Tree> {
    if id < strings then Parsed(Ref(id), pos, strings) else Refused
  }

  /** The reference decoder: one value at `pos`, where `strings` strings have been seen before. */
  function Parse(d: octets, pos: nat, strings: nat): (o: Outcome<Tree>)
    ensures o.Parsed? ==> pos < o.next <= |d| && strings <= o.strings
    decreases |d| - pos, 0
  {
    if pos >= |d| then Refused else
      match TagOf(d[pos])
      case ShortStr(len) => ParseString(d, pos + 1, len, strings)
      case StrTag(w) =>
        if pos + 1 + w > |d| then Refused
        else ParseString(d, pos + 1 + w, FromLe(d[pos + 1..pos + 1 + w]), strings)
      case ShortRef(id) => ParseRef(id, pos + 1, strings)
      case RefTag(w) =>
        if pos + 1 + w > |d| then Refused
        else ParseRef(FromLe(d[pos + 1..pos + 1 + w]), pos + 1 + w, strings)
      case NumTag(w) =>
        if pos + 1 + w > |d| then Refused
        else Parsed(Num(FromLe(d[pos + 1..pos + 1 + w])), pos + 1 + w, strings)
      case SmallNum(n) => Parsed(Small(n), pos + 1, strings)
      case BoolTag(b) => Parsed(Bool(b), pos + 1, strings)
      case ArrTag =>
        (match ParseItems(d, pos + 1, strings, false, true)
         case Parsed(ts, n, c) => Parsed(Arr(ts), n, c)
         case Refused => Refused
         case PastEnd => PastEnd)
      case HashTag =>
        (match ParseItems(d, pos + 1, strings, true, true)
         case Parsed(ts, n, c) => Parsed(Hash(ts), n, c)
         case Refused => Refused
         case PastEnd => PastEnd)
      case DataTag =>
        if pos + 9 > |d| then Refused else Parsed(Data(FromLe(d[pos + 1..pos + 9])), pos + 9, strings)
      case BadTag => Refused
  }

  /** One item of an array, or a key and its value. */
  function ParseItem(d: octets, pos: nat, strings: nat, hash: bool): (o: Outcome<seq<Tree>>)
    ensures o.Parsed? ==> pos < o.next <= |d| && strings <= o.strings && |o.v| == if hash then 2 else 1
    decreases |d| - pos, 1
  {
    match Parse(d, pos, strings)
    case Refused => Refused
    case PastEnd => PastEnd
    case Parsed(t, n, c) =>
      if !hash then Parsed([t], n, c) else
        match Parse(d, n, c)
        case Refused => Refused
        case PastEnd => PastEnd
        case Parsed(v, n', c') => Parsed([t, v], n', c')
  }

  /** The items up to the end mark. Only the first look at the next byte is not preceded by a length check. */
  function ParseItems(d: octets, pos: nat, strings: nat, hash: bool, first: bool): (o: Outcome<seq<Tree>>)
    ensures o.Parsed? ==> pos < o.next <= |d| && strings <= o.strings && (hash ==> |o.v| % 2 == 0)
    decreases |d| - pos, 2
  {
    if pos >= |d| then (if first then PastEnd else Refused)
    else if d[pos] == RPARAM_END then Parsed([], pos + 1, strings)
    else
      match ParseItem(d, pos, strings, hash)
      case Refused => Refused
      case PastEnd => PastEnd
      case Parsed(ts, n, c) => Prepend(ts, ParseItems(d, n, c, hash, false))
  }

  function Prepend(ts: seq<Tree>, o: Outcome<seq<Tree>>): (r: Outcome<seq<Tree>>)
    ensures r.Parsed? == o.Parsed?
    ensures o.Parsed? ==> r == Parsed(ts + o.v, o.next, o.strings)
  {
    if o.Parsed? then Parsed(ts + o.v, o.next, o.strings) else o
  }

  lemma PrependNothing(o: Outcome<seq<Tree>>)
    ensures Prepend([], o) == o
  {
    if o.Parsed? {
      assert [] + o.v == o.v;
    }
  }

  lemma PrependTwice(a: seq<Tree>, b: seq<Tree>, o: Outcome<seq<Tree>>)
    ensures Prepend(a, Prepend(b, o)) == Prepend(a + b, o)
  {
    if o.Parsed? {
      assert a + (b + o.v) == a + b + o.v;
    }
  }

  /** A string and its terminator, rounded up to the alignment. */
  function StrRoom(len: nat): (r: nat)
    ensures r % 8 == 0 && len + 1 <= r <= len + 8
  {
    (len + 8) / 8 * 8
  }

  /** A header, aligned items and a block of pointers keep the alignment. */
  lemma Aligned(items: nat, pointers: nat)
    requires items % 8 == 0
    ensures (16 + items + 8 * pointers) % 8 == 0
  {
  }

  lemma AlignedSum(a: nat, b: nat)
    requires a % 8 == 0 && b % 8 == 0
    ensures (a + b) % 8 == 0
  {
  }

  /** The room that the sizing pass computes, for a 64-bit machine. */
  function Room(t: Tree): (r: nat)
    ensures r % 8 == 0
    decreases t, 1
  {
    match t
    case Str(s) => 8 + StrRoom(|s|)
    case Num(_) => 16
    case Data(_) => 16
    case Arr(ts) =>
      Aligned(RoomAll(ts), |ts|);
      16 + RoomAll(ts) + 8 * |ts|
    case Hash(ts) =>
      Aligned(RoomAll(ts), 2 * (|ts| / 2));
      16 + RoomAll(ts) + 16 * (|ts| / 2)
    case Ref(_) => 0
    case Small(_) => 0
    case Bool(_) => 0
  }

  function RoomAll(ts: seq<Tree>): (r: nat)
    ensures r % 8 == 0
    decreases ts, 0
  {
    if ts == [] then 0 else
      AlignedSum(RoomAll(ts[..|ts| - 1]), Room(ts[|ts| - 1]));
      RoomAll(ts[..|ts| - 1]) + Room(ts[|ts| - 1])
  }

  predicate StringKey(t: Tree) {
    t.Str? || t.Ref?
  }

  /** How many of the pairs have a key that is a string; the others are dropped. */
  function KeptPairs(ts: seq<Tree>): (n: nat)
    requires |ts| % 2 == 0
    ensures n <= |ts| / 2
  {
    if ts == [] then 0 else KeptPairs(ts[..|ts| - 2]) + if StringKey(ts[|ts| - 2]) then 1 else 0
  }

  /** Every hash has a key for each value. */
  predicate Paired(t: Tree) {
    match t
    case Arr(ts) => forall i | 0 <= i < |ts| :: Paired(ts[i])
    case Hash(ts) => |ts| % 2 == 0 && forall i | 0 <= i < |ts| :: Paired(ts[i])
    case _ => true
  }

  /** The room that the building pass really takes. */
  function Used(t: Tree): (r: nat)
    requires Paired(t)
    ensures r % 8 == 0
    decreases t, 1
  {
    match t
    case Str(s) => 8 + StrRoom(|s|)
    case Num(_) => 16
    case Data(_) => 16
    case Arr(ts) =>
      Aligned(UsedAll(ts), |ts|);
      16 + UsedAll(ts) + 8 * |ts|
    case Hash(ts) =>
      Aligned(UsedAll(ts), 2 * KeptPairs(ts));
      16 + UsedAll(ts) + 16 * KeptPairs(ts)
    case Ref(_) => 0
    case Small(_) => 0
    case Bool(_) => 0
  }

  function UsedAll(ts: seq<Tree>): (r: nat)
    requires forall i | 0 <= i < |ts| :: Paired(ts[i])
    ensures r % 8 == 0
    decreases ts, 0
  {
    if ts == [] then 0 else
      AlignedSum(UsedAll(ts[..|ts| - 1]), Used(ts[|ts| - 1]));
      UsedAll(ts[..|ts| - 1]) + Used(ts[|ts| - 1])
  }

  /** All the keys of all the hashes are strings. */
  predicate StringKeys(t: Tree) {
    match t
    case Arr(ts) => forall i | 0 <= i < |ts| :: StringKeys(ts[i])
    case Hash(ts) =>
      (forall i | 0 <= i < |ts| :: StringKeys(ts[i])) && forall i | 0 <= i < |ts| && i % 2 == 0 :: StringKey(ts[i])
    case _ => true
  }

  /** The meaning of a message, given the strings seen before it; and the strings seen after it. */
  function Eval(t: Tree, strs: seq<octets>): (r: (Value, seq<octets>))
    ensures |strs| <= |r.1| && r.1[..|strs|] == strs
    decreases t, 1
  {
    match t
    case Str(s) => (VStr(s), strs + [s])
    case Ref(id) => (VStr(if id < |strs| then strs[id] else []), strs)
    case Num(n) => (VNum(n), strs)
    case Small(n) => (VNum(n), strs)
    case Bool(b) => (VBool(b), strs)
    case Data(n) => (VData(n), strs)
    case Arr(ts) => var (vs, strs') := EvalAll(ts, strs); (VArr(vs), strs')
    case Hash(ts) => var (vs, strs') := EvalAll(ts, strs); (VHash(Pairs(vs)), strs')
  }

  function EvalAll(ts: seq<Tree>, strs: seq<octets>): (r: (seq<Value>, seq<octets>))
    ensures |strs| <= |r.1| && r.1[..|strs|] == strs && |r.0| == |ts|
    decreases ts, 0
  {
    if ts == [] then ([], strs) else
      var (vs, strs') := EvalAll(ts[..|ts| - 1], strs);
      var (v, strs'') := Eval(ts[|ts| - 1], strs');
      (vs + [v], strs'')
  }

  /** Keys and values in turn, made into pairs; a pair without a string key is dropped. */
  function Pairs(vs: seq<Value>): seq<(octets, Value)> {
    if |vs| < 2 then [] else
      Pairs(vs[..|vs| - 2]) + (if vs[|vs| - 2].VStr? then [(vs[|vs| - 2].s, vs[|vs| - 1])] else [])
  }
}
