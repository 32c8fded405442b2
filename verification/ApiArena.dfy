/** The room that a result is built in: typed cells at byte offsets, and the values they represent. */
module ApiArena {
  import opened ApiFormat
  import opened ApiFormatFacts

  /** A binresult pointer: into the arena, or to one of the constants that are shared by all results. */
  datatype Pointer = At(off: nat) | SmallConst(n: nat) | BoolConst(b: bool)

  datatype Cell =
    | StrCell(s: octets)
    | NumCell(n: nat)
    | DataCell(n: nat)
    | ArrCell(len: nat, block: nat)
    | HashCell(len: nat, block: nat)
    | ItemBlock(items: seq<Pointer>)
    | PairBlock(pairs: seq<(Pointer, Pointer)>)

  type Arena = map<nat, Cell>

  function CellRoom(c: Cell): (r: nat)
    ensures r % 8 == 0
  {
    match c
    case StrCell(s) => 8 + StrRoom(|s|)
    case ItemBlock(ps) => 8 * |ps|
    case PairBlock(ps) => 16 * |ps|
    case _ => 16
  }

  /** Cells are aligned, lie below `top`, and do not overlap. */
  ghost predicate Laid(m: Arena, top: nat) {
    && (forall o | o in m :: o % 8 == 0 && CellRoom(m[o]) > 0 && o + CellRoom(m[o]) <= top)
    && (forall o, o' | o in m && o' in m && o < o' :: o + CellRoom(m[o]) <= o')
  }

  lemma LaidPut(m: Arena, top: nat, c: Cell)
    requires Laid(m, top) && top % 8 == 0 && CellRoom(c) > 0
    ensures top !in m && Laid(m[top := c], top + CellRoom(c)) && Extends(m, m[top := c])
  {
  }

  /** A cell that was left out when the ones behind it were written. */
  lemma LaidFill(m: Arena, top: nat, off: nat, c: Cell)
    requires Laid(m, top) && off % 8 == 0 && 0 < CellRoom(c) && off + CellRoom(c) <= top
    requires forall o | o in m :: o + CellRoom(m[o]) <= off || off + CellRoom(c) <= o
    ensures off !in m && Laid(m[off := c], top) && Extends(m, m[off := c])
  {
  }

  ghost predicate Extends(m: Arena, m': Arena) {
    forall o | o in m :: o in m' && m'[o] == m[o]
  }

  predicate IsString(m: Arena, p: Pointer, s: octets) {
    p.At? && p.off in m && m[p.off] == StrCell(s)
  }

  /** What can be read through a pointer. */
  ghost predicate Represents(m: Arena, p: Pointer, v: Value)
    decreases v
  {
    match v
    case VStr(s) => IsString(m, p, s)
    case VNum(n) => p == SmallConst(n) || (p.At? && p.off in m && m[p.off] == NumCell(n))
    case VData(n) => p.At? && p.off in m && m[p.off] == DataCell(n)
    case VBool(b) => p == BoolConst(b)
    case VArr(vs) =>
      && p.At? && p.off in m && m[p.off].ArrCell? && m[p.off].len == |vs|
      && (vs != [] ==>
        var block := m[p.off].block;
        && block in m && m[block].ItemBlock? && |m[block].items| == |vs|
        && forall i | 0 <= i < |vs| :: Represents(m, m[block].items[i], vs[i]))
    case VHash(ps) =>
      && p.At? && p.off in m && m[p.off].HashCell? && m[p.off].len == |ps|
      && (ps != [] ==>
        var block := m[p.off].block;
        && block in m && m[block].PairBlock? && |m[block].pairs| == |ps|
        && forall i | 0 <= i < |ps| ::
          && IsString(m, m[block].pairs[i].0, ps[i].0)
          && Represents(m, m[block].pairs[i].1, ps[i].1))
  }

  /** Values stay where they are while the arena grows. */
  lemma {:induction false} RepresentsExtends(m: Arena, m': Arena, p: Pointer, v: Value)
    requires Extends(m, m') && Represents(m, p, v)
    ensures Represents(m', p, v)
    decreases v
  {
    match v
    case VArr(vs) =>
      forall i | 0 <= i < |vs|
        ensures Represents(m', m[m[p.off].block].items[i], vs[i])
      {
        RepresentsExtends(m, m', m[m[p.off].block].items[i], vs[i]);
      }
    case VHash(ps) =>
      forall i | 0 <= i < |ps|
        ensures Represents(m', m[m[p.off].block].pairs[i].1, ps[i].1)
      {
        RepresentsExtends(m, m', m[m[p.off].block].pairs[i].1, ps[i].1);
      }
    case _ =>
  }

  /** A pointer into an arena represents at most one value, so a result can be read in one way only. */
  lemma {:induction false} OneMeaning(m: Arena, p: Pointer, v: Value, v2: Value)
    requires Represents(m, p, v) && Represents(m, p, v2)
    ensures v == v2
    decreases v
  {
    match v
    case VArr(vs) =>
      forall i | 0 <= i < |vs|
        ensures vs[i] == v2.items[i]
      {
        OneMeaning(m, m[m[p.off].block].items[i], vs[i], v2.items[i]);
      }
      assert vs == v2.items;
    case VHash(ps) =>
      forall i | 0 <= i < |ps|
        ensures ps[i] == v2.pairs[i]
      {
        OneMeaning(m, m[m[p.off].block].pairs[i].1, ps[i].1, v2.pairs[i].1);
      }
      assert ps == v2.pairs;
    case _ =>
  }

  /** A key is a string exactly when the cell it points to says so. */
  predicate PointsToString(m: Arena, p: Pointer) {
    p.At? && p.off in m && m[p.off].StrCell?
  }

  lemma PointsToStringIff(m: Arena, p: Pointer, v: Value)
    requires Represents(m, p, v)
    ensures PointsToString(m, p) <==> v.VStr?
  {
  }

  /** The state of the building pass: the arena, its end, and the strings registered so far. */
  datatype Snap = Snap(cells: Arena, top: nat, strs: seq<octets>)

  ghost predicate Grown(s: Snap, s': Snap) {
    && s.top <= s'.top
    && Extends(s.cells, s'.cells)
    && forall o | o in s'.cells && o !in s.cells :: s.top <= o
  }

  ghost predicate Built(s: Snap, s': Snap, t: Tree, p: Pointer)
    requires Paired(t)
  {
    && Grown(s, s')
    && s'.top == s.top + Used(t)
    && s'.strs == Eval(t, s.strs).1
    && Represents(s'.cells, p, Eval(t, s.strs).0)
  }

  ghost predicate RepresentAll(m: Arena, ps: seq<Pointer>, vs: seq<Value>) {
    |ps| == |vs| && forall i | 0 <= i < |vs| :: Represents(m, ps[i], vs[i])
  }

  ghost predicate BuiltAll(s: Snap, s': Snap, ts: seq<Tree>, ps: seq<Pointer>)
    requires AllPaired(ts)
  {
    && Grown(s, s')
    && s'.top == s.top + UsedAll(ts)
    && s'.strs == EvalAll(ts, s.strs).1
    && RepresentAll(s'.cells, ps, EvalAll(ts, s.strs).0)
  }

  lemma GrownTwice(s: Snap, s': Snap, s'': Snap)
    requires Grown(s, s') && Grown(s', s'')
    ensures Grown(s, s'')
  {
  }

  lemma BuiltNone(s: Snap)
    ensures BuiltAll(s, s, [], [])
  {
  }

  lemma UsedAllMore(ts: seq<Tree>, t: Tree)
    requires AllPaired(ts) && Paired(t)
    ensures AllPaired(ts + [t]) && UsedAll(ts + [t]) == UsedAll(ts) + Used(t)
  {
    hide Used;
    assert (ts + [t])[..|ts|] == ts;
  }

  lemma EvalAllMore(ts: seq<Tree>, t: Tree, strs: seq<octets>)
    ensures var (vs, strs') := EvalAll(ts, strs);
            EvalAll(ts + [t], strs) == (vs + [Eval(t, strs').0], Eval(t, strs').1)
  {
    hide Eval;
    assert (ts + [t])[..|ts|] == ts;
  }

  /** One more item. */
  lemma BuiltMore(s: Snap, s': Snap, s'': Snap, ts: seq<Tree>, ps: seq<Pointer>, t: Tree, p: Pointer)
    requires AllPaired(ts) && Paired(t) && BuiltAll(s, s', ts, ps) && Built(s', s'', t, p)
    ensures AllPaired(ts + [t]) && BuiltAll(s, s'', ts + [t], ps + [p])
  {
    hide Used, UsedAll, Eval, EvalAll;
    GrownTwice(s, s', s'');
    UsedAllMore(ts, t);
    EvalAllMore(ts, t, s.strs);
    RepresentAllExtends(s'.cells, s''.cells, ps, EvalAll(ts, s.strs).0);
  }

  lemma RepresentAllExtends(m: Arena, m': Arena, ps: seq<Pointer>, vs: seq<Value>)
    requires Extends(m, m') && RepresentAll(m, ps, vs)
    ensures RepresentAll(m', ps, vs)
  {
    forall i | 0 <= i < |vs|
      ensures Represents(m', ps[i], vs[i])
    {
      RepresentsExtends(m, m', ps[i], vs[i]);
    }
  }

  ghost predicate RepresentPairs(m: Arena, kept: seq<(Pointer, Pointer)>, ps: seq<(octets, Value)>) {
    |kept| == |ps| && forall i | 0 <= i < |ps| :: IsString(m, kept[i].0, ps[i].0) && Represents(m, kept[i].1, ps[i].1)
  }

  ghost predicate BuiltPairs(s: Snap, s': Snap, ts: seq<Tree>, kept: seq<(Pointer, Pointer)>)
    requires AllPaired(ts) && |ts| % 2 == 0
  {
    && Grown(s, s')
    && s'.top == s.top + UsedAll(ts)
    && s'.strs == EvalAll(ts, s.strs).1
    && RepresentPairs(s'.cells, kept, Pairs(EvalAll(ts, s.strs).0))
    && |kept| == KeptPairs(ts)
  }

  lemma BuiltNoPairs(s: Snap)
    ensures BuiltPairs(s, s, [], [])
  {
  }

  lemma PairsMore(vs: seq<Value>, k: Value, v: Value)
    requires |vs| % 2 == 0
    ensures Pairs(vs + [k, v]) == Pairs(vs) + if k.VStr? then [(k.s, v)] else []
  {
    assert (vs + [k, v])[..|vs|] == vs;
  }

  lemma KeptMore(ts: seq<Tree>, k: Tree, v: Tree)
    requires |ts| % 2 == 0
    ensures KeptPairs(ts + [k, v]) == KeptPairs(ts) + if StringKey(k) then 1 else 0
  {
    assert (ts + [k, v])[..|ts|] == ts;
  }

  lemma StringKeyIff(t: Tree, strs: seq<octets>)
    ensures StringKey(t) <==> Eval(t, strs).0.VStr?
  {
  }

  lemma RepresentPairsExtends(m: Arena, m': Arena, kept: seq<(Pointer, Pointer)>, ps: seq<(octets, Value)>)
    requires Extends(m, m') && RepresentPairs(m, kept, ps)
    ensures RepresentPairs(m', kept, ps)
  {
    forall i | 0 <= i < |ps|
      ensures IsString(m', kept[i].0, ps[i].0) && Represents(m', kept[i].1, ps[i].1)
    {
      RepresentsExtends(m, m', kept[i].1, ps[i].1);
    }
  }

  lemma UsedAndEvalOfTwo(ts: seq<Tree>, k: Tree, v: Tree, strs: seq<octets>)
    requires AllPaired(ts) && Paired(k) && Paired(v)
    ensures AllPaired(ts + [k, v]) && UsedAll(ts + [k, v]) == UsedAll(ts) + Used(k) + Used(v)
    ensures var (vs, s1) := EvalAll(ts, strs);
            var (kv, s2) := Eval(k, s1);
            EvalAll(ts + [k, v], strs) == (vs + [kv, Eval(v, s2).0], Eval(v, s2).1)
  {
    hide Used, UsedAll, Eval, EvalAll;
    assert ts + [k, v] == ts + [k] + [v];
    UsedAllMore(ts, k);
    UsedAllMore(ts + [k], v);
    EvalAllMore(ts, k, strs);
    EvalAllMore(ts + [k], v, strs);
    var (vs, s1) := EvalAll(ts, strs);
    var (kv, s2) := Eval(k, s1);
    assert vs + [kv] + [Eval(v, s2).0] == vs + [kv, Eval(v, s2).0];
  }

  /** One more pair, which is kept when its key is a string. */
  lemma BuiltPairMore(s: Snap, s1: Snap, s2: Snap, s3: Snap, ts: seq<Tree>, kept: seq<(Pointer, Pointer)>,
                      k: Tree, v: Tree, kp: Pointer, vp: Pointer)
    requires AllPaired(ts) && Paired(k) && Paired(v) && |ts| % 2 == 0
    requires BuiltPairs(s, s1, ts, kept) && Built(s1, s2, k, kp) && Built(s2, s3, v, vp)
    ensures AllPaired(ts + [k, v]) && |ts + [k, v]| % 2 == 0
    ensures BuiltPairs(s, s3, ts + [k, v], if PointsToString(s3.cells, kp) then kept + [(kp, vp)] else kept)
  {
    hide Used, UsedAll, Eval, EvalAll, Pairs, KeptPairs, Represents, StringKey;
    GrownTwice(s, s1, s2);
    GrownTwice(s, s2, s3);
    GrownTwice(s1, s2, s3);
    UsedAndEvalOfTwo(ts, k, v, s.strs);
    var vs := EvalAll(ts, s.strs).0;
    var kv, vv := Eval(k, s1.strs).0, Eval(v, s2.strs).0;
    EvalLength(ts, s.strs);
    PairsMore(vs, kv, vv);
    KeptMore(ts, k, v);
    StringKeyIff(k, s1.strs);
    RepresentPairsExtends(s1.cells, s3.cells, kept, Pairs(vs));
    RepresentsExtends(s2.cells, s3.cells, kp, kv);
    PointsToStringIff(s3.cells, kp, kv);
    if kv.VStr? {
      RepresentsString(s3.cells, kp, kv);
    }
  }

  lemma EvalLength(ts: seq<Tree>, strs: seq<octets>)
    ensures |EvalAll(ts, strs).0| == |ts|
  {
  }

  lemma RepresentsString(m: Arena, p: Pointer, v: Value)
    requires v.VStr? && Represents(m, p, v)
    ensures IsString(m, p, v.s)
  {
  }

  /** Room for a header is set aside at the end of the arena; it is filled in when what it refers to has been built. */
  function SetAside(s: Snap): Snap {
    s.(top := s.top + 16)
  }

  function WithCell(s: Snap, off: nat, c: Cell): Snap {
    s.(cells := s.cells[off := c])
  }

  /** The block of pointers behind the items, which an empty container does not have. */
  ghost predicate BlockWritten(s: Snap, s': Snap, block: nat, c: Cell) {
    if CellRoom(c) == 0 then s' == s
    else block == s.top && s' == Snap(s.cells[block := c], s.top + CellRoom(c), s.strs)
  }

  lemma BlockIsGrowth(s: Snap, s': Snap, block: nat, c: Cell)
    requires Laid(s.cells, s.top) && s.top % 8 == 0 && BlockWritten(s, s', block, c)
    ensures Grown(s, s') && Laid(s'.cells, s'.top) && s'.top == s.top + CellRoom(c)
    ensures CellRoom(c) > 0 ==> block in s'.cells && s'.cells[block] == c
  {
    if CellRoom(c) > 0 {
      LaidPut(s.cells, s.top, c);
    }
  }

  /** Filling in a header disturbs nothing that was built behind it. */
  lemma HeaderFilled(s: Snap, s': Snap, c: Cell)
    requires Laid(s.cells, s.top) && Laid(s'.cells, s'.top) && s.top % 8 == 0
    requires Grown(SetAside(s), s') && CellRoom(c) == 16
    ensures Laid(WithCell(s', s.top, c).cells, s'.top)
    ensures Grown(s, WithCell(s', s.top, c)) && Extends(s'.cells, WithCell(s', s.top, c).cells)
  {
    hide CellRoom;
    assert Grown(s, s');
    forall o | o in s'.cells
      ensures o + CellRoom(s'.cells[o]) <= s.top || s.top + 16 <= o
    {
      if o in s.cells {
        assert s'.cells[o] == s.cells[o];
      }
    }
    LaidFill(s'.cells, s'.top, s.top, c);
  }

  lemma ArrayClosed(s: Snap, s2: Snap, s3: Snap, ts: seq<Tree>, items: seq<Pointer>, block: nat)
    requires AllPaired(ts) && BuiltAll(SetAside(s), s2, ts, items) && BlockWritten(s2, s3, block, ItemBlock(items))
    requires Laid(s.cells, s.top) && Laid(s2.cells, s2.top) && s.top % 8 == 0
    ensures var s4 := WithCell(s3, s.top, ArrCell(|items|, block));
            Laid(s4.cells, s4.top) && Extends(s2.cells, s4.cells) && Built(s, s4, Arr(ts), At(s.top))
  {
    hide Laid, UsedAll, EvalAll, Eval, Used, Represents, RepresentAll, Extends;
    UsedAligned(ts);
    BlockIsGrowth(s2, s3, block, ItemBlock(items));
    GrownTwice(SetAside(s), s2, s3);
    var header := ArrCell(|items|, block);
    HeaderFilled(s, s3, header);
    var s4 := WithCell(s3, s.top, header);
    UsedOfArr(ts);
    EvalOfArr(ts, s.strs);
    var vs := EvalAll(ts, s.strs).0;
    RepresentAllLength(s2.cells, items, vs);
    EvalLength(ts, s.strs);
    ExtendsTwice(s2.cells, s3.cells, s4.cells);
    RepresentAllExtends(s2.cells, s4.cells, items, vs);
    BlockStays(s3, s4, s.top, header, block, ItemBlock(items));
    ArrayRepresented(s4.cells, s.top, items, block, vs);
  }

  lemma RepresentAllLength(m: Arena, ps: seq<Pointer>, vs: seq<Value>)
    requires RepresentAll(m, ps, vs)
    ensures |ps| == |vs|
  {
  }

  lemma ExtendsTwice(m: Arena, m': Arena, m'': Arena)
    requires Extends(m, m') && Extends(m', m'')
    ensures Extends(m, m'')
  {
  }

  /** Filling in the header leaves the block of pointers where it is. */
  lemma BlockStays(s: Snap, s': Snap, off: nat, header: Cell, block: nat, c: Cell)
    requires s' == WithCell(s, off, header) && Extends(s.cells, s'.cells)
    requires CellRoom(c) > 0 ==> block in s.cells && s.cells[block] == c
    ensures off in s'.cells && s'.cells[off] == header
    ensures CellRoom(c) > 0 ==> block in s'.cells && s'.cells[block] == c
  {
  }

  lemma ArrayRepresented(m: Arena, off: nat, items: seq<Pointer>, block: nat, vs: seq<Value>)
    requires off in m && m[off] == ArrCell(|items|, block) && RepresentAll(m, items, vs)
    requires CellRoom(ItemBlock(items)) > 0 ==> block in m && m[block] == ItemBlock(items)
    ensures Represents(m, At(off), VArr(vs))
  {
  }

  lemma HashRepresented(m: Arena, off: nat, kept: seq<(Pointer, Pointer)>, block: nat, ps: seq<(octets, Value)>)
    requires off in m && m[off] == HashCell(|kept|, block) && RepresentPairs(m, kept, ps)
    requires CellRoom(PairBlock(kept)) > 0 ==> block in m && m[block] == PairBlock(kept)
    ensures Represents(m, At(off), VHash(ps))
  {
  }

  lemma UsedAligned(ts: seq<Tree>)
    requires AllPaired(ts)
    ensures UsedAll(ts) % 8 == 0
  {
  }

  lemma UsedOfArr(ts: seq<Tree>)
    requires AllPaired(ts)
    ensures Paired(Arr(ts)) && Used(Arr(ts)) == 16 + UsedAll(ts) + 8 * |ts|
  {
  }

  lemma EvalOfArr(ts: seq<Tree>, strs: seq<octets>)
    ensures Eval(Arr(ts), strs) == (VArr(EvalAll(ts, strs).0), EvalAll(ts, strs).1)
  {
  }

  lemma HashClosed(s: Snap, s2: Snap, s3: Snap, ts: seq<Tree>, kept: seq<(Pointer, Pointer)>, block: nat)
    requires AllPaired(ts) && |ts| % 2 == 0
    requires BuiltPairs(SetAside(s), s2, ts, kept) && BlockWritten(s2, s3, block, PairBlock(kept))
    requires Laid(s.cells, s.top) && Laid(s2.cells, s2.top) && s.top % 8 == 0
    ensures var s4 := WithCell(s3, s.top, HashCell(|kept|, block));
            Laid(s4.cells, s4.top) && Extends(s2.cells, s4.cells) && Built(s, s4, Hash(ts), At(s.top))
  {
    hide Laid, UsedAll, EvalAll, Eval, Used, Pairs, KeptPairs, Represents, RepresentPairs, Extends;
    UsedAligned(ts);
    BlockIsGrowth(s2, s3, block, PairBlock(kept));
    GrownTwice(SetAside(s), s2, s3);
    var header := HashCell(|kept|, block);
    HeaderFilled(s, s3, header);
    var s4 := WithCell(s3, s.top, header);
    UsedOfHash(ts);
    EvalOfHash(ts, s.strs);
    var ps := Pairs(EvalAll(ts, s.strs).0);
    ExtendsTwice(s2.cells, s3.cells, s4.cells);
    RepresentPairsExtends(s2.cells, s4.cells, kept, ps);
    BlockStays(s3, s4, s.top, header, block, PairBlock(kept));
    HashRepresented(s4.cells, s.top, kept, block, ps);
  }

  lemma UsedOfHash(ts: seq<Tree>)
    requires AllPaired(ts) && |ts| % 2 == 0
    ensures Paired(Hash(ts)) && Used(Hash(ts)) == 16 + UsedAll(ts) + 16 * KeptPairs(ts)
  {
  }

  lemma EvalOfHash(ts: seq<Tree>, strs: seq<octets>)
    ensures Eval(Hash(ts), strs) == (VHash(Pairs(EvalAll(ts, strs).0)), EvalAll(ts, strs).1)
  {
  }
}
