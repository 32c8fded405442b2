/** The second pass over a result, which builds it without checking any length, in the room that was measured. */
module ApiBuilder {
  import opened ApiFormat
  import opened ApiFormatFacts
  import opened ApiArena

  class Builder {
    const data: octets
    const limit: nat
    const strings: array<Pointer>
    var pos: nat
    var nextstrid: nat
    var cells: Arena
    var top: nat
    ghost var strs: seq<octets>

    ghost function Now(): Snap
      reads this`cells, this`top, this`strs
    {
      Snap(cells, top, strs)
    }

    ghost predicate Valid()
      reads this, strings
    {
      pos <= |data| && Settled()
    }

    /** The arena is laid out, and the strings seen so far are registered. */
    ghost predicate Settled()
      reads this`nextstrid, this`cells, this`top, this`strs, strings
    {
      && nextstrid == |strs| <= strings.Length
      && (forall i | 0 <= i < nextstrid :: IsString(cells, strings[i], strs[i]))
      && Laid(cells, top) && top % 8 == 0 && top <= limit
    }

    constructor (data: octets, limit: nat, strcnt: nat)
      ensures Valid() && fresh(strings)
      ensures this.data == data && this.limit == limit && strings.Length == strcnt
      ensures pos == 0 && nextstrid == 0 && Now() == Snap(map[], 0, [])
    {
      this.data, this.limit := data, limit;
      strings := new Pointer[strcnt](_ => SmallConst(0));
      pos, nextstrid, cells, top, strs := 0, 0, map[], 0, [];
    }

    /** Writes a cell at the end of the arena. It has to fit. */
    method Put(c: Cell) returns (p: nat)
      requires Valid() && CellRoom(c) > 0 && top + CellRoom(c) <= limit
      modifies this`cells, this`top
      ensures Valid() && p == old(top) && top == old(top) + CellRoom(c)
      ensures cells == old(cells)[p := c] && Grown(old(Now()), Now())
    {
      hide Laid, CellRoom;
      p := top;
      LaidPut(cells, top, c);
      cells := cells[p := c];
      top := top + CellRoom(c);
    }

    /** do_parse_result. */
    method DoParse(ghost t: Tree, ghost n: nat, ghost c: nat) returns (p: Pointer)
      requires Valid() && Paired(t) && Parse(data, pos, nextstrid) == Parsed(t, n, c)
      requires c <= strings.Length && top + Room(t) <= limit
      modifies this, strings
      ensures Valid() && pos == n && nextstrid == c && Built(old(Now()), Now(), t, p)
      decreases |data| - pos, 0
    {
      hide ParseItems, RoomAll, Used, Eval, FromLe, Built, Represents, TagOf, StrRoom, Settled;
      var tag := TagOf(data[pos]);
      pos := pos + 1;
      match tag {
        case ShortStr(len) =>
          p := BuildString(len);
        case StrTag(w) =>
          var len := FromLe(data[pos..pos + w]);
          pos := pos + w;
          p := BuildString(len);
        case ShortRef(id) =>
          p := FollowRef(id);
        case RefTag(w) =>
          var id := FromLe(data[pos..pos + w]);
          pos := pos + w;
          p := FollowRef(id);
        case NumTag(w) =>
          var n := FromLe(data[pos..pos + w]);
          pos := pos + w;
          p := BuildNumber(NumCell(n), t);
        case SmallNum(i) =>
          BuiltConstant(Now());
          p := SmallConst(i);
        case BoolTag(b) =>
          BuiltConstant(Now());
          p := BoolConst(b);
        case ArrTag =>
          p := BuildArray(t.items, n, c);
        case HashTag =>
          p := BuildHash(t.items, n, c);
        case DataTag =>
          var n := FromLe(data[pos..pos + 8]);
          pos := pos + 8;
          p := BuildNumber(DataCell(n), t);
        case BadTag =>
          assert false;
      }
    }

    method FollowRef(id: nat) returns (p: Pointer)
      requires Valid() && id < nextstrid
      ensures Built(Now(), Now(), Ref(id), p)
    {
      hide Laid, Built;
      BuiltRef(Now(), id, strings[id]);
      p := strings[id];
    }

    method BuildNumber(cell: Cell, ghost t: Tree) returns (p: Pointer)
      requires Valid() && top + 16 <= limit
      requires (cell.NumCell? && t == Num(cell.n)) || (cell.DataCell? && t == Data(cell.n))
      modifies this`cells, this`top
      ensures Valid() && Built(old(Now()), Now(), t, p)
    {
      hide Laid;
      var off := Put(cell);
      p := At(off);
    }

    method BuildString(len: nat) returns (p: Pointer)
      requires Valid() && pos + len <= |data| && nextstrid < strings.Length
      requires top + 8 + StrRoom(len) <= limit
      modifies this, strings
      ensures Valid() && pos == old(pos) + len && nextstrid == old(nextstrid) + 1
      ensures Built(old(Now()), Now(), Str(data[old(pos)..old(pos) + len]), p)
    {
      hide Laid;
      var s := data[pos..pos + len];
      var off := Put(StrCell(s));
      p := At(off);
      strings[nextstrid] := p;
      nextstrid := nextstrid + 1;
      strs := strs + [s];
      pos := pos + len;
    }

    method BuildArray(ghost ts: seq<Tree>, ghost n: nat, ghost c: nat) returns (p: Pointer)
      requires Valid() && AllPaired(ts) && ParseItems(data, pos, nextstrid, false, true) == Parsed(ts, n, c)
      requires c <= strings.Length && top + 16 + RoomAll(ts) + 8 * |ts| <= limit
      modifies this, strings
      ensures Valid() && pos == n && nextstrid == c && Built(old(Now()), Now(), Arr(ts), p)
      decreases |data| - pos, 3
    {
      hide ParseItems, RoomAll, UsedAll, EvalAll, Used, Eval, Laid, Represents, Built, BuiltAll;
      ghost var s := Now();
      var off := top;
      top := top + 16;
      LaidHigher(cells, off, top);
      var items := BuildItems(ts, n, c);
      ghost var s2 := Now();
      BuiltAllRoom(SetAside(s), s2, ts, items);
      var block := top;
      if items != [] {
        block := Put(ItemBlock(items));
      }
      ArrayClosed(s, s2, Now(), ts, items, block);
      cells := cells[off := ArrCell(|items|, block)];
      p := At(off);
    }

    method BuildHash(ghost ts: seq<Tree>, ghost n: nat, ghost c: nat) returns (p: Pointer)
      requires Valid() && AllPaired(ts) && |ts| % 2 == 0
      requires ParseItems(data, pos, nextstrid, true, true) == Parsed(ts, n, c)
      requires c <= strings.Length && top + 16 + RoomAll(ts) + 16 * (|ts| / 2) <= limit
      modifies this, strings
      ensures Valid() && pos == n && nextstrid == c && Built(old(Now()), Now(), Hash(ts), p)
      decreases |data| - pos, 3
    {
      hide ParseItems, RoomAll, UsedAll, EvalAll, Used, Eval, Laid, Represents, Built, BuiltPairs;
      ghost var s := Now();
      var off := top;
      top := top + 16;
      LaidHigher(cells, off, top);
      var kept := BuildPairs(ts, n, c);
      ghost var s2 := Now();
      BuiltPairsRoom(SetAside(s), s2, ts, kept);
      var block := top;
      if kept != [] {
        block := Put(PairBlock(kept));
      }
      HashClosed(s, s2, Now(), ts, kept, block);
      cells := cells[off := HashCell(|kept|, block)];
      p := At(off);
    }

    /** The loop over the items of an array. */
    method BuildItems(ghost ts: seq<Tree>, ghost n: nat, ghost c: nat) returns (items: seq<Pointer>)
      requires Valid() && AllPaired(ts) && ParseItems(data, pos, nextstrid, false, true) == Parsed(ts, n, c)
      requires c <= strings.Length && top + RoomAll(ts) <= limit
      modifies this, strings
      ensures Valid() && pos == n && nextstrid == c && BuiltAll(old(Now()), Now(), ts, items)
      decreases |data| - pos, 2
    {
      hide Parse, ParseItems, Room, RoomAll, UsedAll, EvalAll, Used, Eval, Laid, Represents, Built, BuiltAll, Valid;
      ghost var s, done, rest := Now(), [], ts;
      items := [];
      ItemsInside(data, pos, nextstrid, false, true);
      BuiltNone(s);
      while data[pos] != RPARAM_END
        invariant old(pos) <= pos < |data| && Valid()
        invariant ts == done + rest && AllPaired(done) && AllPaired(rest)
        invariant ParseItems(data, pos, nextstrid, false, false) == Parsed(rest, n, c)
        invariant BuiltAll(s, Now(), done, items) && top + RoomAll(rest) <= limit
        decreases |data| - pos
      {
        NextItem(data, pos, nextstrid, rest, n, c);
        RoomOfFirst(rest);
        ghost var t, before := rest[0], Now();
        var item := BuildItem(t);
        BuiltMore(s, before, Now(), done, items, t, item);
        items := items + [item];
        done, rest := done + [t], rest[1..];
        ItemsInside(data, pos, nextstrid, false, false);
      }
      ItemsInside(data, pos, nextstrid, false, false);
      assert done + [] == done;
      SkipEnd();
    }

    method SkipEnd()
      requires Valid() && pos < |data|
      modifies this`pos
      ensures Valid() && pos == old(pos) + 1
    {
      pos := pos + 1;
    }

    method BuildItem(ghost t: Tree) returns (p: Pointer)
      requires Valid() && Paired(t)
      requires var o := Parse(data, pos, nextstrid);
               o.Parsed? && o.v == t && o.strings <= strings.Length
      requires top + Room(t) <= limit
      modifies this, strings
      ensures Valid() && Built(old(Now()), Now(), t, p)
      ensures var o := Parse(data, old(pos), old(nextstrid));
              pos == o.next && nextstrid == o.strings
      ensures top <= old(top) + Room(t)
      decreases |data| - pos, 1
    {
      hide Room, Eval, Laid, Represents, Built;
      ghost var s, o := Now(), Parse(data, pos, nextstrid);
      p := DoParse(t, o.next, o.strings);
      BuiltRoom(s, Now(), t, p);
    }

    method BuildPair(ghost k: Tree, ghost v: Tree) returns (key: Pointer, value: Pointer, ghost s2: Snap)
      requires Valid() && Paired(k) && Paired(v)
      requires var ko := Parse(data, pos, nextstrid);
               ko.Parsed? && ko.v == k &&
               var vo := Parse(data, ko.next, ko.strings);
               vo.Parsed? && vo.v == v && ko.strings <= vo.strings <= strings.Length
      requires top + Room(k) + Room(v) <= limit
      modifies this, strings
      ensures Valid() && Built(old(Now()), s2, k, key) && Built(s2, Now(), v, value)
      ensures var ko := Parse(data, old(pos), old(nextstrid));
              var vo := Parse(data, ko.next, ko.strings);
              pos == vo.next && nextstrid == vo.strings && old(pos) < pos
      ensures top <= old(top) + Room(k) + Room(v)
      decreases |data| - pos, 1
    {
      hide Room, Eval, Laid, Represents, Built;
      ghost var s1, ko := Now(), Parse(data, pos, nextstrid);
      key := DoParse(k, ko.next, ko.strings);
      s2 := Now();
      ghost var vo := Parse(data, pos, nextstrid);
      BuiltRoom(s1, s2, k, key);
      value := DoParse(v, vo.next, vo.strings);
      BuiltRoom(s2, Now(), v, value);
    }

    /** The loop over the pairs of a hash: a pair whose key is not a string is built, but not kept. */
    method BuildPairs(ghost ts: seq<Tree>, ghost n: nat, ghost c: nat) returns (kept: seq<(Pointer, Pointer)>)
      requires Valid() && AllPaired(ts) && |ts| % 2 == 0
      requires ParseItems(data, pos, nextstrid, true, true) == Parsed(ts, n, c)
      requires c <= strings.Length && top + RoomAll(ts) <= limit
      modifies this, strings
      ensures Valid() && pos == n && nextstrid == c && BuiltPairs(old(Now()), Now(), ts, kept)
      decreases |data| - pos, 2
    {
      hide Parse, ParseItems, Room, RoomAll, UsedAll, EvalAll, Used, Eval, Laid, Represents, Built, BuiltPairs, Valid;
      ghost var s, done, rest := Now(), [], ts;
      kept := [];
      ItemsInside(data, pos, nextstrid, true, true);
      BuiltNoPairs(s);
      while data[pos] != RPARAM_END
        invariant old(pos) <= pos < |data| && Valid()
        invariant ts == done + rest && AllPaired(done) && AllPaired(rest) && |done| % 2 == 0
        invariant ParseItems(data, pos, nextstrid, true, false) == Parsed(rest, n, c)
        invariant BuiltPairs(s, Now(), done, kept) && top + RoomAll(rest) <= limit
        decreases |data| - pos
      {
        NextPair(data, pos, nextstrid, rest, n, c);
        RoomOfFirst(rest);
        RoomOfFirst(rest[1..]);
        assert rest[1..][1..] == rest[2..] && rest[1..][0] == rest[1];
        ghost var k, v, s1 := rest[0], rest[1], Now();
        ghost var s2;
        var key, value;
        key, value, s2 := BuildPair(k, v);
        BuiltPairMore(s, s1, s2, Now(), done, kept, k, v, key, value);
        if PointsToString(cells, key) {
          kept := kept + [(key, value)];
        }
        done, rest := done + [k, v], rest[2..];
        ItemsInside(data, pos, nextstrid, true, false);
      }
      ItemsInside(data, pos, nextstrid, true, false);
      assert done + [] == done;
      SkipEnd();
    }
  }

  lemma BuiltRef(s: Snap, id: nat, p: Pointer)
    requires id < |s.strs| && IsString(s.cells, p, s.strs[id])
    ensures Built(s, s, Ref(id), p)
  {
  }

  lemma BuiltConstant(s: Snap)
    ensures forall n :: Built(s, s, Small(n), SmallConst(n))
    ensures forall b :: Built(s, s, Bool(b), BoolConst(b))
  {
  }

  lemma LaidHigher(m: Arena, top: nat, top': nat)
    requires Laid(m, top) && top <= top'
    ensures Laid(m, top')
  {
  }

  lemma BuiltRoom(s: Snap, s': Snap, t: Tree, p: Pointer)
    requires Paired(t) && Built(s, s', t, p)
    ensures s'.top <= s.top + Room(t)
  {
    UsedIsRoom(t);
  }

  lemma BuiltAllRoom(s: Snap, s': Snap, ts: seq<Tree>, ps: seq<Pointer>)
    requires AllPaired(ts) && BuiltAll(s, s', ts, ps)
    ensures s'.top <= s.top + RoomAll(ts) && |ps| == |ts|
  {
    UsedAllIsRoom(ts);
    EvalLength(ts, s.strs);
  }

  lemma BuiltPairsRoom(s: Snap, s': Snap, ts: seq<Tree>, kept: seq<(Pointer, Pointer)>)
    requires AllPaired(ts) && |ts| % 2 == 0 && BuiltPairs(s, s', ts, kept)
    ensures s'.top <= s.top + RoomAll(ts) && |kept| <= |ts| / 2
  {
    UsedAllIsRoom(ts);
  }
}
