/** What references and hash keys mean, in the order in which things are written. */
module ApiMeaning {
  import opened ApiFormat
  import opened Sequences

  /** The strings of a message, as they are written: their positions are what references refer to. */
  function Strings(t: Tree): seq<octets>
    decreases t, 1
  {
    match t
    case Str(s) => [s]
    case Arr(ts) => StringsOf(ts)
    case Hash(ts) => StringsOf(ts)
    case _ => []
  }

  function StringsOf(ts: seq<Tree>): seq<octets>
    decreases ts, 0
  {
    if ts == [] then [] else Strings(ts[0]) + StringsOf(ts[1..])
  }

  lemma {:induction false} StringsMore(ts: seq<Tree>, t: Tree)
    ensures StringsOf(ts + [t]) == StringsOf(ts) + Strings(t)
  {
    hide Strings;
    if ts == [] {
      assert [t][1..] == [];
      NothingFollows(Strings(t), []);
      assert [] + [t] == [t] && [] + Strings(t) == Strings(t);
    } else {
      StringsMore(ts[1..], t);
      assert (ts + [t])[1..] == ts[1..] + [t];
      ConcatAssoc(Strings(ts[0]), StringsOf(ts[1..]), Strings(t));
    }
  }

  /** Evaluation registers the strings in that order, through all levels. */
  lemma {:induction false} RegistersInOrder(t: Tree, strs: seq<octets>)
    ensures Eval(t, strs).1 == strs + Strings(t)
    decreases t, 1
  {
    match t
    case Arr(ts) => AllRegister(ts, strs);
    case Hash(ts) => AllRegister(ts, strs);
    case _ =>
  }

  lemma {:induction false} AllRegister(ts: seq<Tree>, strs: seq<octets>)
    ensures EvalAll(ts, strs).1 == strs + StringsOf(ts)
    decreases ts, 0
  {
    hide Eval, Strings;
    if ts == [] {
    } else {
      var k := |ts| - 1;
      AllRegister(ts[..k], strs);
      RegistersInOrder(ts[k], EvalAll(ts[..k], strs).1);
      assert ts == ts[..k] + [ts[k]];
      StringsMore(ts[..k], ts[k]);
      ConcatAssoc(strs, StringsOf(ts[..k]), Strings(ts[k]));
    }
  }

  /** Each item is evaluated after the strings of all items before it. */
  lemma {:induction false} ItemMeans(ts: seq<Tree>, strs: seq<octets>, i: nat)
    requires i < |ts|
    ensures EvalAll(ts, strs).0[i] == Eval(ts[i], strs + StringsOf(ts[..i])).0
    decreases ts
  {
    hide Eval, StringsOf;
    var k := |ts| - 1;
    if i == k {
      AllRegister(ts[..k], strs);
    } else {
      ItemMeans(ts[..k], strs, i);
      assert ts[..k][..i] == ts[..i];
    }
  }

  /** A reference among the items of an array or a hash stands for the string that was written as number `id`. */
  lemma RefMeans(ts: seq<Tree>, strs: seq<octets>, i: nat, id: nat)
    requires i < |ts| && ts[i] == Ref(id) && id < |strs + StringsOf(ts[..i])|
    ensures EvalAll(ts, strs).0[i] == VStr((strs + StringsOf(ts[..i]))[id])
  {
    hide EvalAll, StringsOf;
    ItemMeans(ts, strs, i);
  }

  /** A key and a value are a pair if the key is a string, and nothing otherwise; pairs keep their order. */
  lemma PairMeans(k: Value, v: Value)
    ensures Pairs([k, v]) == if k.VStr? then [(k.s, v)] else []
  {
    assert [k, v][..0] == [];
    assert Pairs([]) == [];
  }

  lemma {:induction false} PairsInOrder(a: seq<Value>, b: seq<Value>)
    requires |a| % 2 == 0 && |b| % 2 == 0
    ensures Pairs(a + b) == Pairs(a) + Pairs(b)
    decreases |b|
  {
    if b == [] {
      assert a + b == a;
    } else {
      var c := b[..|b| - 2];
      PairsInOrder(a, c);
      assert (a + b)[..|a + b| - 2] == a + c;
    }
  }
}
