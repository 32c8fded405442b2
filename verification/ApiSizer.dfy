/** The first pass over a result, which only measures the room that it takes. */
module ApiSizer {
  import opened ApiFormat

  datatype Size = Sized(n: nat) | NotSized | LeftMessage

  /** calc_ret_len, with the bytes that are left and the strings that were seen as its state. */
  class Sizer {
    const data: octets
    var pos: nat
    var strcnt: nat

    constructor (data: octets)
      ensures this.data == data && pos == 0 && strcnt == 0
    {
      this.data, pos, strcnt := data, 0, 0;
    }

    ghost predicate Agrees(o: Outcome<Tree>, r: Size)
      reads this
    {
      match o
      case Parsed(t, n, c) => r == Sized(Room(t)) && pos == n && strcnt == c
      case Refused => r == NotSized
      case PastEnd => r == LeftMessage
    }

    method CalcRetLen() returns (r: Size)
      requires pos <= |data|
      modifies this
      ensures pos <= |data| && Agrees(Parse(data, old(pos), old(strcnt)), r)
      decreases |data| - pos, 0
    {
      hide RoomAll, ParseItems, TagOf, FromLe, StrRoom;
      if pos == |data| {
        return NotSized;
      }
      var tag := TagOf(data[pos]);
      pos := pos + 1;
      match tag {
        case ShortStr(len) =>
          r := CalcString(len);
        case StrTag(w) =>
          if pos + w > |data| {
            return NotSized;
          }
          var len := FromLe(data[pos..pos + w]);
          pos := pos + w;
          r := CalcString(len);
        case ShortRef(id) =>
          return if id < strcnt then Sized(0) else NotSized;
        case RefTag(w) =>
          if pos + w > |data| {
            return NotSized;
          }
          var id := FromLe(data[pos..pos + w]);
          pos := pos + w;
          return if id < strcnt then Sized(0) else NotSized;
        case NumTag(w) =>
          if pos + w > |data| {
            return NotSized;
          }
          pos := pos + w;
          return Sized(16);
        case SmallNum(_) =>
          return Sized(0);
        case BoolTag(_) =>
          return Sized(0);
        case ArrTag =>
          var cnt;
          r, cnt := CalcItems(false);
          return if r.Sized? then Sized(16 + r.n + 8 * cnt) else r;
        case HashTag =>
          var cnt;
          r, cnt := CalcItems(true);
          return if r.Sized? then Sized(16 + r.n + 16 * cnt) else r;
        case DataTag =>
          if pos + 8 > |data| {
            return NotSized;
          }
          pos := pos + 8;
          return Sized(16);
        case BadTag =>
          return NotSized;
      }
    }

    method CalcString(len: nat) returns (r: Size)
      requires pos <= |data|
      modifies this
      ensures pos <= |data| && Agrees(ParseString(data, old(pos), len, old(strcnt)), r)
    {
      if pos + len > |data| {
        return NotSized;
      }
      pos := pos + len;
      strcnt := strcnt + 1;
      return Sized(8 + StrRoom(len));
    }

    /** One turn of the loop: an item, or a key and its value. */
    method CalcItem(hash: bool) returns (r: Size)
      requires pos <= |data|
      modifies this
      ensures pos <= |data|
      ensures match ParseItem(data, old(pos), old(strcnt), hash)
              case Parsed(ts, n, c) =>
                r == Sized(Room(ts[0]) + if hash then Room(ts[1]) else 0) && pos == n && strcnt == c
              case Refused => r == NotSized
              case PastEnd => r == LeftMessage
      decreases |data| - pos, 1
    {
      hide Parse, Room;
      r := CalcRetLen();
      if hash && r.Sized? {
        var value := CalcRetLen();
        return if value.Sized? then Sized(r.n + value.n) else value;
      }
    }

    /** The loop over the items of an array, or over the pairs of a hash. `cnt` counts items or pairs. */
    method CalcItems(hash: bool) returns (r: Size, cnt: nat)
      requires pos <= |data|
      modifies this
      ensures pos <= |data|
      ensures match ParseItems(data, old(pos), old(strcnt), hash, true)
              case Parsed(ts, n, c) =>
                r == Sized(RoomAll(ts)) && pos == n && strcnt == c && cnt == (if hash then |ts| / 2 else |ts|)
              case Refused => r == NotSized
              case PastEnd => r == LeftMessage
      decreases |data| - pos, 2
    {
      hide ParseItem, Room, RoomAll;
      ghost var target := ParseItems(data, pos, strcnt, hash, true);
      ghost var done: seq<Tree> := [];
      var total := 0;
      cnt := 0;
      if pos == |data| {
        return LeftMessage, 0;
      }
      PrependNothing(target);
      RoomOfNone();
      while data[pos] != RPARAM_END
        invariant old(pos) <= pos < |data|
        invariant total == RoomAll(done) && cnt == if hash then |done| / 2 else |done|
        invariant hash ==> |done| % 2 == 0
        invariant target == Prepend(done, ParseItems(data, pos, strcnt, hash, false))
        decreases |data| - pos
      {
        ghost var item := ParseItem(data, pos, strcnt, hash);
        r := CalcItem(hash);
        if !r.Sized? {
          return;
        }
        total := total + r.n;
        RoomAllMore(done, item.v);
        PrependTwice(done, item.v, ParseItems(data, pos, strcnt, hash, false));
        done := done + item.v;
        cnt := cnt + 1;
        if pos == |data| {
          return NotSized, cnt;
        }
      }
      pos := pos + 1;
      r := Sized(total);
      assert done + [] == done;
    }
  }

  lemma RoomOfNone()
    ensures RoomAll([]) == 0
  {
  }

  lemma RoomAllMore(ts: seq<Tree>, more: seq<Tree>)
    requires 1 <= |more| <= 2
    ensures RoomAll(ts + more) == RoomAll(ts) + Room(more[0]) + if |more| == 2 then Room(more[1]) else 0
  {
    assert ts + more == ts + [more[0]] + more[1..];
    assert (ts + [more[0]])[..|ts|] == ts;
    if |more| == 2 {
      assert (ts + more)[..|ts| + 1] == ts + [more[0]];
    }
  }
}
