/** Facts about every message that can be read: pairing, strings, and the room it takes. */
module ApiFormatFacts {
  import opened ApiFormat

  ghost predicate AllPaired(ts: seq<Tree>) {
    forall i | 0 <= i < |ts| :: Paired(ts[i])
  }

  lemma {:induction false} ParsedIsPaired(d: octets, pos: nat, strings: nat)
    ensures var o := Parse(d, pos, strings);
            o.Parsed? ==> Paired(o.v)
    decreases |d| - pos, 0
  {
    if pos < |d| {
      match TagOf(d[pos])
      case ArrTag => ParsedItemsArePaired(d, pos + 1, strings, false, true);
      case HashTag => ParsedItemsArePaired(d, pos + 1, strings, true, true);
      case _ =>
    }
  }

  lemma {:induction false} ParsedItemsArePaired(d: octets, pos: nat, strings: nat, hash: bool, first: bool)
    ensures var o := ParseItems(d, pos, strings, hash, first);
            o.Parsed? ==> AllPaired(o.v)
    decreases |d| - pos, 2
  {
    var o := ParseItems(d, pos, strings, hash, first);
    if o.Parsed? && d[pos] != RPARAM_END {
      ParsedItemIsPaired(d, pos, strings, hash);
      var item := ParseItem(d, pos, strings, hash);
      ParsedItemsArePaired(d, item.next, item.strings, hash, false);
      var rest := ParseItems(d, item.next, item.strings, hash, false);
      assert o.v == item.v + rest.v;
    }
  }

  lemma {:induction false} ParsedItemIsPaired(d: octets, pos: nat, strings: nat, hash: bool)
    ensures var o := ParseItem(d, pos, strings, hash);
            o.Parsed? ==> AllPaired(o.v)
    decreases |d| - pos, 1
  {
    var o := ParseItem(d, pos, strings, hash);
    if o.Parsed? {
      ParsedIsPaired(d, pos, strings);
      if hash {
        var key := Parse(d, pos, strings);
        ParsedIsPaired(d, key.next, key.strings);
      }
    }
  }

  lemma {:induction false} RoomAllSum(a: seq<Tree>, b: seq<Tree>)
    ensures RoomAll(a + b) == RoomAll(a) + RoomAll(b)
    decreases |b|
  {
    hide Room;
    if b == [] {
      assert a + b == a;
    } else {
      assert (a + b)[..|a + b| - 1] == a + b[..|b| - 1];
      RoomAllSum(a, b[..|b| - 1]);
    }
  }

  /** The building pass takes no more room than was measured, and takes all of it exactly when all keys are strings. */
  lemma {:induction false} UsedIsRoom(t: Tree)
    requires Paired(t)
    ensures Used(t) <= Room(t)
    ensures Used(t) == Room(t) <==> StringKeys(t)
    decreases t, 1
  {
    match t
    case Arr(ts) => UsedAllIsRoom(ts);
    case Hash(ts) =>
      UsedAllIsRoom(ts);
      KeptAllIffStrings(ts);
    case _ =>
  }

  lemma {:induction false} UsedAllIsRoom(ts: seq<Tree>)
    requires forall i | 0 <= i < |ts| :: Paired(ts[i])
    ensures UsedAll(ts) <= RoomAll(ts)
    ensures UsedAll(ts) == RoomAll(ts) <==> forall i | 0 <= i < |ts| :: StringKeys(ts[i])
    decreases ts, 0
  {
    if ts == [] {
    } else {
      var k := |ts| - 1;
      UsedAllIsRoom(ts[..k]);
      UsedIsRoom(ts[k]);
      assert forall i | 0 <= i < k :: ts[..k][i] == ts[i];
    }
  }

  lemma {:induction false} KeptAllIffStrings(ts: seq<Tree>)
    requires |ts| % 2 == 0
    ensures KeptPairs(ts) == |ts| / 2 <==> forall i | 0 <= i < |ts| && i % 2 == 0 :: StringKey(ts[i])
    decreases |ts|
  {
    if ts == [] {
    } else {
      var k := |ts| - 2;
      KeptAllIffStrings(ts[..k]);
      assert forall i | 0 <= i < k :: ts[..k][i] == ts[i];
    }
  }

  /** Each byte of a message measures at most 24 bytes, so the size of a message of less than 4 GiB cannot overflow. */
  lemma {:induction false} RoomIsBounded(d: octets, pos: nat, strings: nat)
    ensures var o := Parse(d, pos, strings);
            o.Parsed? ==> Room(o.v) <= 16 * (o.next - pos) + 8 * (o.next - pos - 1)
    decreases |d| - pos, 0
  {
    if pos < |d| && Parse(d, pos, strings).Parsed? {
      match TagOf(d[pos])
      case ArrTag => ItemsAreBounded(d, pos + 1, strings, false, true);
      case HashTag => ItemsAreBounded(d, pos + 1, strings, true, true);
      case _ =>
    }
  }

  lemma {:induction false} ItemsAreBounded(d: octets, pos: nat, strings: nat, hash: bool, first: bool)
    ensures var o := ParseItems(d, pos, strings, hash, first);
            o.Parsed? ==> RoomAll(o.v) + 8 * |o.v| <= 24 * (o.next - pos - 1)
    decreases |d| - pos, 2
  {
    var o := ParseItems(d, pos, strings, hash, first);
    if o.Parsed? && d[pos] != RPARAM_END {
      var item := ParseItem(d, pos, strings, hash);
      ItemIsBounded(d, pos, strings, hash);
      ItemsAreBounded(d, item.next, item.strings, hash, false);
      RoomAllSum(item.v, ParseItems(d, item.next, item.strings, hash, false).v);
    }
  }

  lemma {:induction false} ItemIsBounded(d: octets, pos: nat, strings: nat, hash: bool)
    ensures var o := ParseItem(d, pos, strings, hash);
            o.Parsed? ==> RoomAll(o.v) + 8 * |o.v| <= 24 * (o.next - pos)
    decreases |d| - pos, 1
  {
    var o := ParseItem(d, pos, strings, hash);
    if o.Parsed? {
      RoomIsBounded(d, pos, strings);
      RoomOfOne(o.v[0]);
      if hash {
        var key := Parse(d, pos, strings);
        RoomIsBounded(d, key.next, key.strings);
        RoomOfOne(o.v[1]);
        RoomAllSum([o.v[0]], [o.v[1]]);
        assert o.v == [o.v[0]] + [o.v[1]];
      }
    }
  }

  lemma RoomOfOne(t: Tree)
    ensures RoomAll([t]) == Room(t)
  {
    assert [t][..0] == [];
  }

  /** Evaluation registers as many strings as reading did. */
  lemma {:induction false} EvalCountsStrings(d: octets, pos: nat, strings: nat, strs: seq<octets>)
    requires |strs| == strings
    ensures var o := Parse(d, pos, strings);
            o.Parsed? ==> |Eval(o.v, strs).1| == o.strings
    decreases |d| - pos, 0
  {
    if pos < |d| && Parse(d, pos, strings).Parsed? {
      match TagOf(d[pos])
      case ArrTag => ItemsCountStrings(d, pos + 1, strings, false, true, strs);
      case HashTag => ItemsCountStrings(d, pos + 1, strings, true, true, strs);
      case _ =>
    }
  }

  lemma {:induction false} ItemsCountStrings(d: octets, pos: nat, strings: nat, hash: bool, first: bool, strs: seq<octets>)
    requires |strs| == strings
    ensures var o := ParseItems(d, pos, strings, hash, first);
            o.Parsed? ==> |EvalAll(o.v, strs).1| == o.strings
    decreases |d| - pos, 2
  {
    var o := ParseItems(d, pos, strings, hash, first);
    if o.Parsed? && d[pos] != RPARAM_END {
      var item := ParseItem(d, pos, strings, hash);
      ItemCountsStrings(d, pos, strings, hash, strs);
      var strs' := EvalAll(item.v, strs).1;
      ItemsCountStrings(d, item.next, item.strings, hash, false, strs');
      EvalAllSum(item.v, ParseItems(d, item.next, item.strings, hash, false).v, strs);
    }
  }

  lemma {:induction false} ItemCountsStrings(d: octets, pos: nat, strings: nat, hash: bool, strs: seq<octets>)
    requires |strs| == strings
    ensures var o := ParseItem(d, pos, strings, hash);
            o.Parsed? ==> |EvalAll(o.v, strs).1| == o.strings
    decreases |d| - pos, 1
  {
    var o := ParseItem(d, pos, strings, hash);
    if o.Parsed? {
      EvalCountsStrings(d, pos, strings, strs);
      EvalAllOne(o.v[0], strs);
      if hash {
        var key := Parse(d, pos, strings);
        var strs' := Eval(o.v[0], strs).1;
        EvalCountsStrings(d, key.next, key.strings, strs');
        EvalAllOne(o.v[1], strs');
        EvalAllSum([o.v[0]], [o.v[1]], strs);
        assert o.v == [o.v[0]] + [o.v[1]];
      }
    }
  }

  lemma EvalAllOne(t: Tree, strs: seq<octets>)
    ensures EvalAll([t], strs) == ([Eval(t, strs).0], Eval(t, strs).1)
  {
    hide Eval;
    assert [t][..0] == [];
    assert EvalAll([], strs) == ([], strs);
    assert [] + [Eval(t, strs).0] == [Eval(t, strs).0];
  }

  lemma {:induction false} EvalAllSum(a: seq<Tree>, b: seq<Tree>, strs: seq<octets>)
    ensures var (va, sa) := EvalAll(a, strs);
            var (vb, sb) := EvalAll(b, sa);
            EvalAll(a + b, strs) == (va + vb, sb)
    decreases |b|
  {
    hide Eval;
    if b == [] {
      assert a + b == a;
      assert EvalAll(a, strs).0 + [] == EvalAll(a, strs).0;
    } else {
      var k := |b| - 1;
      assert (a + b)[..|a + b| - 1] == a + b[..k];
      EvalAllSum(a, b[..k], strs);
      var (va, sa) := EvalAll(a, strs);
      var (vb, sb) := EvalAll(b[..k], sa);
      assert va + (vb + [Eval(b[k], sb).0]) == va + vb + [Eval(b[k], sb).0];
    }
  }

  /** Items that can be read are there: the look at the next byte stays inside the message. */
  lemma ItemsInside(d: octets, pos: nat, strings: nat, hash: bool, first: bool)
    requires ParseItems(d, pos, strings, hash, first).Parsed?
    ensures pos < |d| && ParseItems(d, pos, strings, hash, false) == ParseItems(d, pos, strings, hash, first)
    ensures strings <= ParseItems(d, pos, strings, hash, first).strings
    ensures var o := ParseItems(d, pos, strings, hash, first);
            d[pos] == RPARAM_END ==> o == Parsed([], pos + 1, strings)
  {
  }

  lemma NextItem(d: octets, pos: nat, strings: nat, ts: seq<Tree>, n: nat, c: nat)
    requires pos < |d| && d[pos] != RPARAM_END && ParseItems(d, pos, strings, false, false) == Parsed(ts, n, c)
    ensures var o := Parse(d, pos, strings);
            && o.Parsed? && ts != [] && o.v == ts[0] && pos < o.next <= |d|
            && ParseItems(d, o.next, o.strings, false, false) == Parsed(ts[1..], n, c)
            && o.strings <= c
  {
    hide Parse;
    var item := ParseItem(d, pos, strings, false);
    var rest := ParseItems(d, item.next, item.strings, false, false);
    assert ts == item.v + rest.v;
    assert ts[1..] == rest.v;
    ItemsInside(d, item.next, item.strings, false, false);
  }

  lemma NextPair(d: octets, pos: nat, strings: nat, ts: seq<Tree>, n: nat, c: nat)
    requires pos < |d| && d[pos] != RPARAM_END && ParseItems(d, pos, strings, true, false) == Parsed(ts, n, c)
    ensures var k := Parse(d, pos, strings);
            k.Parsed? && pos < k.next <= |d| &&
            var v := Parse(d, k.next, k.strings);
            && v.Parsed? && k.next < v.next <= |d| && |ts| >= 2 && k.v == ts[0] && v.v == ts[1]
            && ParseItems(d, v.next, v.strings, true, false) == Parsed(ts[2..], n, c)
            && k.strings <= v.strings <= c
  {
    hide Parse;
    var item := ParseItem(d, pos, strings, true);
    var rest := ParseItems(d, item.next, item.strings, true, false);
    assert ts == item.v + rest.v;
    assert ts[2..] == rest.v;
    ItemsInside(d, item.next, item.strings, true, false);
  }

  lemma RoomOfFirst(ts: seq<Tree>)
    requires ts != []
    ensures RoomAll(ts) == Room(ts[0]) + RoomAll(ts[1..])
  {
    assert ts == [ts[0]] + ts[1..];
    RoomAllSum([ts[0]], ts[1..]);
    RoomOfOne(ts[0]);
  }
}
