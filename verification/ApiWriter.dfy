/** A writer of results, which the reference decoder inverts. */
module ApiWriter {
  import opened ApiFormat

  function ToLe(n: nat, w: nat): (s: octets)
    ensures |s| == w
  {
    if w == 0 then [] else [n % 256] + ToLe(n / 256, w - 1)
  }

  function Power256(w: nat): (p: nat)
    ensures p >= 1
  {
    if w == 0 then 1 else 256 * Power256(w - 1)
  }

  lemma {:induction false} FromToLe(n: nat, w: nat)
    requires n < Power256(w)
    ensures FromLe(ToLe(n, w)) == n
  {
    if w == 0 {
    } else {
      FromToLe(n / 256, w - 1);
      assert ToLe(n, w)[1..] == ToLe(n / 256, w - 1);
    }
  }

  /**
   * One way of writing a value. Numbers, and the lengths and ids of strings, have a width in bytes; width 0 stands for
   * the short form that holds a length or id below 50 in the type byte.
   */
  datatype Form =
    | FStr(s: octets, width: nat)
    | FRef(id: nat, width: nat)
    | FNum(n: nat, width: nat)
    | FSmall(n: nat)
    | FBool(b: bool)
    | FArr(items: seq<Form>)
    | FHash(items: seq<Form>)
    | FData(n: nat)

  /** The tree that is written. */
  function Meant(f: Form): Tree
    decreases f, 1
  {
    match f
    case FStr(s, _) => Str(s)
    case FRef(id, _) => Ref(id)
    case FNum(n, _) => Num(n)
    case FSmall(n) => Small(n)
    case FBool(b) => Bool(b)
    case FArr(fs) => Arr(MeantAll(fs))
    case FHash(fs) => Hash(MeantAll(fs))
    case FData(n) => Data(n)
  }

  function MeantAll(fs: seq<Form>): (ts: seq<Tree>)
    ensures |ts| == |fs|
    decreases fs, 0
  {
    if fs == [] then [] else [Meant(fs[0])] + MeantAll(fs[1..])
  }

  /** What can be written: numbers fit their widths, keys have values, and references follow what they refer to. */
  predicate Writable(f: Form, strings: nat)
    decreases f, 1
  {
    match f
    case FStr(s, w) => w <= 4 && |s| < if w == 0 then 50 else Power256(w)
    case FRef(id, w) => w <= 4 && id < strings && id < if w == 0 then 50 else Power256(w)
    case FNum(n, w) => 1 <= w <= 8 && n < Power256(w)
    case FSmall(n) => n < 20
    case FBool(_) => true
    case FData(n) => n < Power256(8)
    case FArr(fs) => AllWritable(fs, strings)
    case FHash(fs) => |fs| % 2 == 0 && AllWritable(fs, strings)
  }

  predicate AllWritable(fs: seq<Form>, strings: nat)
    decreases fs, 0
  {
    fs == [] || (Writable(fs[0], strings) && AllWritable(fs[1..], After(fs[0], strings)))
  }

  /** How many strings have been registered after a value. */
  function After(f: Form, strings: nat): (n: nat)
    decreases f, 1
  {
    match f
    case FStr(_, _) => strings + 1
    case FArr(fs) => AfterAll(fs, strings)
    case FHash(fs) => AfterAll(fs, strings)
    case _ => strings
  }

  function AfterAll(fs: seq<Form>, strings: nat): (n: nat)
    decreases fs, 0
  {
    if fs == [] then strings else AfterAll(fs[1..], After(fs[0], strings))
  }

  /** The bytes, with the type bytes of the format as numbers. */
  function Write(f: Form, strings: nat): (s: octets)
    requires Writable(f, strings)
    ensures s != [] && s[0] != 255
    decreases f, 1
  {
    match f
    case FStr(s, w) => (if w == 0 then [100 + |s|] else [w - 1] + ToLe(|s|, w)) + s
    case FRef(id, w) => if w == 0 then [150 + id] else [3 + w] + ToLe(id, w)
    case FNum(n, w) => [7 + w] + ToLe(n, w)
    case FSmall(n) => [200 + n]
    case FBool(b) => [if b then 19 else 18]
    case FData(n) => [20] + ToLe(n, 8)
    case FArr(fs) => [17] + WriteAll(fs, strings) + [255]
    case FHash(fs) => [16] + WriteAll(fs, strings) + [255]
  }

  function WriteAll(fs: seq<Form>, strings: nat): octets
    requires AllWritable(fs, strings)
    decreases fs, 0
  {
    if fs == [] then [] else Write(fs[0], strings) + WriteAll(fs[1..], After(fs[0], strings))
  }

  ghost predicate StandsAt(d: octets, pos: nat, s: octets) {
    pos + |s| <= |d| && d[pos..pos + |s|] == s
  }

  lemma StandsInTwo(d: octets, pos: nat, a: octets, b: octets)
    requires StandsAt(d, pos, a + b)
    ensures StandsAt(d, pos, a) && StandsAt(d, pos + |a|, b)
  {
    assert d[pos..pos + |a + b|][..|a|] == a && d[pos..pos + |a + b|][|a|..] == b;
  }

  lemma NumberAt(d: octets, pos: nat, n: nat, w: nat)
    requires StandsAt(d, pos, ToLe(n, w)) && n < Power256(w)
    ensures FromLe(d[pos..pos + w]) == n
  {
    FromToLe(n, w);
  }

  /** Whatever is written, in whatever forms, is read again, wherever it stands. */
  lemma {:induction false} ParseWritten(f: Form, strings: nat, d: octets, pos: nat)
    requires Writable(f, strings) && StandsAt(d, pos, Write(f, strings))
    ensures Parse(d, pos, strings) == Parsed(Meant(f), pos + |Write(f, strings)|, After(f, strings))
    decreases f, 1
  {
    match f
    case FArr(fs) => ContainerWritten(fs, strings, d, pos, 17);
    case FHash(fs) => ContainerWritten(fs, strings, d, pos, 16);
    case _ => LeafWritten(f, strings, d, pos);
  }

  lemma FirstByte(d: octets, pos: nat, s: octets)
    requires StandsAt(d, pos, s) && s != []
    ensures pos < |d| && d[pos] == s[0]
  {
    assert d[pos] == d[pos..pos + |s|][0];
  }

  lemma LeafWritten(f: Form, strings: nat, d: octets, pos: nat)
    requires !f.FArr? && !f.FHash? && Writable(f, strings) && StandsAt(d, pos, Write(f, strings))
    ensures Parse(d, pos, strings) == Parsed(Meant(f), pos + |Write(f, strings)|, After(f, strings))
  {
    hide Parse, FromLe, ToLe, Power256;
    match f
    case FStr(s, w) => StringWritten(s, w, strings, d, pos);
    case FRef(id, w) => RefWritten(id, w, strings, d, pos);
    case _ => OtherWritten(f, strings, d, pos);
  }

  lemma OtherWritten(f: Form, strings: nat, d: octets, pos: nat)
    requires (f.FNum? || f.FData? || f.FSmall? || f.FBool?) && Writable(f, strings) && StandsAt(d, pos, Write(f, strings))
    ensures Parse(d, pos, strings) == Parsed(Meant(f), pos + |Write(f, strings)|, After(f, strings))
  {
    hide FromLe, ToLe, Power256;
    match f
    case FNum(n, w) => NumberWritten(n, w, d, pos, 7 + w);
    case FData(n) => NumberWritten(n, 8, d, pos, 20);
    case FSmall(n) => FirstByte(d, pos, [200 + n]);
    case FBool(b) => FirstByte(d, pos, [if b then 19 else 18]);
  }

  lemma NumberWritten(n: nat, w: nat, d: octets, pos: nat, tag: octet)
    requires n < Power256(w) && StandsAt(d, pos, [tag] + ToLe(n, w))
    ensures pos + 1 + w <= |d| && d[pos] == tag && FromLe(d[pos + 1..pos + 1 + w]) == n
  {
    hide FromLe, ToLe;
    StandsInTwo(d, pos, [tag], ToLe(n, w));
    LeWidth(n, w);
    FirstByte(d, pos, [tag]);
    NumberAt(d, pos + 1, n, w);
  }

  lemma LeWidth(n: nat, w: nat)
    ensures |ToLe(n, w)| == w
  {
  }

  lemma PowersOf256()
    ensures Power256(4) == 0x1_0000_0000 && Power256(8) == 0x1_0000_0000_0000_0000
  {
  }

  lemma ParseOfString(d: octets, pos: nat, strings: nat)
    requires pos < |d| && (d[pos] <= 3 || 100 <= d[pos] < 150)
    ensures d[pos] >= 100 ==> Parse(d, pos, strings) == ParseString(d, pos + 1, d[pos] - 100, strings)
    ensures d[pos] <= 3 && pos + 2 + d[pos] <= |d| ==>
              Parse(d, pos, strings)
              == ParseString(d, pos + 2 + d[pos], FromLe(d[pos + 1..pos + 2 + d[pos]]), strings)
  {
    hide FromLe;
  }

  lemma StringWritten(s: octets, w: nat, strings: nat, d: octets, pos: nat)
    requires Writable(FStr(s, w), strings) && StandsAt(d, pos, Write(FStr(s, w), strings))
    ensures Parse(d, pos, strings) == Parsed(Str(s), pos + |Write(FStr(s, w), strings)|, strings + 1)
  {
    hide FromLe, ToLe, Power256, Parse, StandsAt;
    if w == 0 {
      ShortStringWritten(s, strings, d, pos);
    } else {
      LeWidth(|s|, w);
      WideStringWritten(s, w, strings, d, pos);
    }
  }

  lemma ShortStringWritten(s: octets, strings: nat, d: octets, pos: nat)
    requires |s| < 50 && StandsAt(d, pos, [100 + |s|] + s)
    ensures Parse(d, pos, strings) == Parsed(Str(s), pos + 1 + |s|, strings + 1)
  {
    hide Parse, ParseString, StandsAt;
    StandsInTwo(d, pos, [100 + |s|], s);
    FirstByte(d, pos, [100 + |s|]);
    ParseOfString(d, pos, strings);
    StringAt(s, strings, d, pos + 1);
  }

  lemma WideStringWritten(s: octets, w: nat, strings: nat, d: octets, pos: nat)
    requires 1 <= w <= 4 && |s| < Power256(w) && StandsAt(d, pos, [w - 1] + ToLe(|s|, w) + s)
    ensures Parse(d, pos, strings) == Parsed(Str(s), pos + 1 + w + |s|, strings + 1)
  {
    hide Parse, ParseString, StandsAt, FromLe, ToLe, Power256;
    LeWidth(|s|, w);
    StandsInTwo(d, pos, [w - 1] + ToLe(|s|, w), s);
    NumberWritten(|s|, w, d, pos, w - 1);
    ParseOfString(d, pos, strings);
    StringAt(s, strings, d, pos + 1 + w);
  }

  lemma StringAt(s: octets, strings: nat, d: octets, pos: nat)
    requires StandsAt(d, pos, s)
    ensures ParseString(d, pos, |s|, strings) == Parsed(Str(s), pos + |s|, strings + 1)
  {
  }

  lemma RefWritten(id: nat, w: nat, strings: nat, d: octets, pos: nat)
    requires Writable(FRef(id, w), strings) && StandsAt(d, pos, Write(FRef(id, w), strings))
    ensures Parse(d, pos, strings) == Parsed(Ref(id), pos + |Write(FRef(id, w), strings)|, strings)
  {
    hide FromLe, ToLe, Power256;
    LeWidth(id, w);
    if w == 0 {
      FirstByte(d, pos, [150 + id]);
    } else {
      NumberWritten(id, w, d, pos, 3 + w);
    }
  }

  lemma {:induction false} ContainerWritten(fs: seq<Form>, strings: nat, d: octets, pos: nat, tag: octet)
    requires AllWritable(fs, strings) && tag in {16, 17}
    requires tag == 16 ==> |fs| % 2 == 0
    requires StandsAt(d, pos, [tag] + WriteAll(fs, strings) + [255])
    ensures Parse(d, pos, strings)
         == Parsed(if tag == 17 then Arr(MeantAll(fs)) else Hash(MeantAll(fs)), pos + |WriteAll(fs, strings)| + 2,
                   AfterAll(fs, strings))
    decreases fs, 2
  {
    hide WriteAll, AfterAll, MeantAll, Parse, ParseItems;
    var body := WriteAll(fs, strings);
    assert [tag] + body + [255] == [tag] + (body + [255]);
    StandsInTwo(d, pos, [tag], body + [255]);
    FirstByte(d, pos, [tag]);
    ParseOfContainer(d, pos, strings);
    if tag == 17 {
      ItemsWritten(fs, strings, d, pos + 1, true);
    } else {
      PairsWritten(fs, strings, d, pos + 1, true);
    }
  }

  lemma ParseOfContainer(d: octets, pos: nat, strings: nat)
    requires pos < |d|
    ensures d[pos] == 17 && ParseItems(d, pos + 1, strings, false, true).Parsed? ==>
      var o := ParseItems(d, pos + 1, strings, false, true);
      Parse(d, pos, strings) == Parsed(Arr(o.v), o.next, o.strings)
    ensures d[pos] == 16 && ParseItems(d, pos + 1, strings, true, true).Parsed? ==>
      var o := ParseItems(d, pos + 1, strings, true, true);
      Parse(d, pos, strings) == Parsed(Hash(o.v), o.next, o.strings)
  {
  }

  lemma {:induction false} ItemsWritten(fs: seq<Form>, strings: nat, d: octets, pos: nat, first: bool)
    requires AllWritable(fs, strings) && StandsAt(d, pos, WriteAll(fs, strings) + [255])
    ensures ParseItems(d, pos, strings, false, first)
         == Parsed(MeantAll(fs), pos + |WriteAll(fs, strings)| + 1, AfterAll(fs, strings))
    decreases fs, 0
  {
    hide Parse, Write, After, Writable, WriteAll, AfterAll, AllWritable, Meant;
    if fs == [] {
      NothingWritten(strings);
      FirstByte(d, pos, [255]);
    } else {
      OneWritten(fs, strings);
      var s, c := Write(fs[0], strings), After(fs[0], strings);
      var rest := WriteAll(fs[1..], c) + [255];
      StandsInTwo(d, pos, s, rest);
      ParseWritten(fs[0], strings, d, pos);
      FirstByte(d, pos, s);
      ItemsWritten(fs[1..], c, d, pos + |s|, false);
    }
  }

  lemma OneWritten(fs: seq<Form>, strings: nat)
    requires AllWritable(fs, strings) && fs != []
    ensures Writable(fs[0], strings) && AllWritable(fs[1..], After(fs[0], strings))
    ensures var s, c := Write(fs[0], strings), After(fs[0], strings);
            && AfterAll(fs, strings) == AfterAll(fs[1..], c)
            && |WriteAll(fs, strings)| == |s| + |WriteAll(fs[1..], c)|
            && WriteAll(fs, strings) + [255] == s + (WriteAll(fs[1..], c) + [255])
  {
    hide Write, After, Writable;
  }

  /** A key and its value. */
  lemma {:induction false} PairWritten(fs: seq<Form>, strings: nat, d: octets, pos: nat)
    requires |fs| >= 2 && Writable(fs[0], strings) && Writable(fs[1], After(fs[0], strings))
    requires StandsAt(d, pos, Write(fs[0], strings) + Write(fs[1], After(fs[0], strings)))
    ensures var c := After(fs[0], strings);
            && pos < |d| && d[pos] != 255
            && ParseItem(d, pos, strings, true)
               == Parsed([Meant(fs[0]), Meant(fs[1])], pos + |Write(fs[0], strings)| + |Write(fs[1], c)|, After(fs[1], c))
    decreases fs, 0
  {
    hide Parse, Write, After, Writable, Meant;
    var ks, c := Write(fs[0], strings), After(fs[0], strings);
    StandsInTwo(d, pos, ks, Write(fs[1], c));
    ParseWritten(fs[0], strings, d, pos);
    ParseWritten(fs[1], c, d, pos + |ks|);
    FirstByte(d, pos, ks);
  }

  lemma {:induction false} PairsWritten(fs: seq<Form>, strings: nat, d: octets, pos: nat, first: bool)
    requires AllWritable(fs, strings) && |fs| % 2 == 0 && StandsAt(d, pos, WriteAll(fs, strings) + [255])
    ensures ParseItems(d, pos, strings, true, first)
         == Parsed(MeantAll(fs), pos + |WriteAll(fs, strings)| + 1, AfterAll(fs, strings))
    decreases fs, 1
  {
    hide ParseItem, Write, After, Writable, WriteAll, AfterAll, Meant, MeantAll;
    if fs == [] {
      NothingWritten(strings);
      FirstByte(d, pos, [255]);
    } else {
      TwoWritten(fs, strings);
      TwoMeant(fs);
      var ks, c := Write(fs[0], strings), After(fs[0], strings);
      var vs, c' := Write(fs[1], c), After(fs[1], c);
      var rest := WriteAll(fs[2..], c') + [255];
      StandsInTwo(d, pos, ks + vs, rest);
      PairWritten(fs, strings, d, pos);
      PairsWritten(fs[2..], c', d, pos + |ks| + |vs|, false);
    }
  }

  lemma NothingWritten(strings: nat)
    ensures WriteAll([], strings) == [] && AfterAll([], strings) == strings && MeantAll([]) == []
  {
  }

  lemma TwoMeant(fs: seq<Form>)
    requires |fs| >= 2
    ensures MeantAll(fs) == [Meant(fs[0]), Meant(fs[1])] + MeantAll(fs[2..])
  {
    hide Meant, MeantAll;
    var tail := fs[1..];
    assert tail[0] == fs[1] && tail[1..] == fs[2..];
    OneMeant(fs);
    OneMeant(tail);
  }

  lemma OneMeant(fs: seq<Form>)
    requires fs != []
    ensures MeantAll(fs) == [Meant(fs[0])] + MeantAll(fs[1..])
  {
    hide Meant;
  }

  lemma TwoWritten(fs: seq<Form>, strings: nat)
    requires AllWritable(fs, strings) && |fs| >= 2
    ensures Writable(fs[0], strings) && Writable(fs[1], After(fs[0], strings))
    ensures var ks, c := Write(fs[0], strings), After(fs[0], strings);
            var vs, c' := Write(fs[1], c), After(fs[1], c);
            && AllWritable(fs[2..], c') && AfterAll(fs, strings) == AfterAll(fs[2..], c')
            && |WriteAll(fs, strings)| == |ks| + |vs| + |WriteAll(fs[2..], c')|
            && WriteAll(fs, strings) + [255] == ks + vs + (WriteAll(fs[2..], c') + [255])
  {
    hide Write, After, Writable, Meant;
    var tail := fs[1..];
    assert tail[0] == fs[1] && tail[1..] == fs[2..];
  }
}
