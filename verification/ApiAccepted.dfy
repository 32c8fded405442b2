/** What the decoder accepts: nothing but the writings of the value it reads. */
module ApiAccepted {
  import opened ApiFormat
  import opened ApiWriter

  lemma {:induction false} ToFromLe(s: octets)
    ensures ToLe(FromLe(s), |s|) == s && FromLe(s) < Power256(|s|)
  {
    if s == [] {
    } else {
      ToFromLe(s[1..]);
      LowByte(s[0], FromLe(s[1..]));
      assert s == [s[0]] + s[1..];
    }
  }

  lemma LowByte(b: octet, n: nat)
    ensures (b + 256 * n) % 256 == b && (b + 256 * n) / 256 == n
  {
  }

  /** The bytes of a number count in powers of 256, the first one least. */
  lemma {:induction false} FromLeAppend(s: octets, b: octet)
    ensures FromLe(s + [b]) == FromLe(s) + Power256(|s|) * b
  {
    if s == [] {
      assert [b][1..] == [];
    } else {
      FromLeAppend(s[1..], b);
      assert (s + [b])[1..] == s[1..] + [b];
      Distributed(FromLe(s[1..]), Power256(|s| - 1), b);
    }
  }

  lemma Distributed(n: nat, p: nat, b: nat)
    ensures 256 * (n + p * b) == 256 * n + 256 * p * b
  {
  }

  /** The bytes from pos to next. */
  ghost predicate Spans(d: octets, pos: nat, next: nat, s: octets) {
    pos <= next <= |d| && d[pos..next] == s
  }

  lemma SpanInTwo(d: octets, pos: nat, mid: nat, next: nat, a: octets, b: octets)
    requires Spans(d, pos, mid, a) && Spans(d, mid, next, b)
    ensures Spans(d, pos, next, a + b)
  {
  }

  lemma OneByte(d: octets, pos: nat)
    requires pos < |d|
    ensures Spans(d, pos, pos + 1, [d[pos]])
  {
  }

  /** A type byte and a number of w bytes behind it. */
  lemma NumberRead(d: octets, pos: nat, w: nat)
    requires pos + 1 + w <= |d|
    ensures var n := FromLe(d[pos + 1..pos + 1 + w]);
            Spans(d, pos, pos + 1 + w, [d[pos]] + ToLe(n, w)) && n < Power256(w)
  {
    hide FromLe, ToLe;
    var s := d[pos + 1..pos + 1 + w];
    ToFromLe(s);
    OneByte(d, pos);
    SpanInTwo(d, pos, pos + 1, pos + 1 + w, [d[pos]], s);
  }

  /** A form that explains what was read from pos. */
  ghost predicate Explains(f: Form, d: octets, pos: nat, strings: nat, o: Outcome<Tree>) {
    && o.Parsed? && Writable(f, strings) && Meant(f) == o.v && After(f, strings) == o.strings
    && Spans(d, pos, o.next, Write(f, strings))
  }

  lemma StringRead(d: octets, pos: nat, strings: nat) returns (f: Form)
    requires pos < |d| && (d[pos] <= 3 || 100 <= d[pos] < 150) && Parse(d, pos, strings).Parsed?
    ensures Explains(f, d, pos, strings, Parse(d, pos, strings))
  {
    hide FromLe, ToLe, Power256;
    var o := Parse(d, pos, strings);
    var s := o.v.s;
    if d[pos] <= 3 {
      var w := d[pos] + 1;
      NumberRead(d, pos, w);
      f := FStr(s, w);
      SpanInTwo(d, pos, pos + 1 + w, o.next, [d[pos]] + ToLe(|s|, w), s);
    } else {
      OneByte(d, pos);
      f := FStr(s, 0);
      SpanInTwo(d, pos, pos + 1, o.next, [d[pos]], s);
    }
  }

  lemma RefRead(d: octets, pos: nat, strings: nat) returns (f: Form)
    requires pos < |d| && (4 <= d[pos] <= 7 || 150 <= d[pos] < 200) && Parse(d, pos, strings).Parsed?
    ensures Explains(f, d, pos, strings, Parse(d, pos, strings))
  {
    hide FromLe, ToLe, Power256;
    var id := Parse(d, pos, strings).v.id;
    if d[pos] <= 7 {
      NumberRead(d, pos, d[pos] - 3);
      f := FRef(id, d[pos] - 3);
    } else {
      OneByte(d, pos);
      f := FRef(id, 0);
    }
  }

  lemma OtherRead(d: octets, pos: nat, strings: nat) returns (f: Form)
    requires pos < |d| && (8 <= d[pos] <= 15 || 18 <= d[pos] < 100 || d[pos] >= 200) && Parse(d, pos, strings).Parsed?
    ensures Explains(f, d, pos, strings, Parse(d, pos, strings))
  {
    hide FromLe, ToLe, Power256;
    var o := Parse(d, pos, strings);
    OneByte(d, pos);
    if d[pos] <= 15 {
      NumberRead(d, pos, d[pos] - 7);
      f := FNum(o.v.n, d[pos] - 7);
    } else if d[pos] == 20 {
      NumberRead(d, pos, 8);
      f := FData(o.v.n);
    } else if d[pos] >= 200 {
      f := FSmall(d[pos] - 200);
    } else {
      f := FBool(d[pos] == 19);
    }
  }

  /**
   * Whenever a value is read, the bytes that it was read from are one of the ways of writing it.
   */
  lemma {:induction false} ReadIsWritten(d: octets, pos: nat, strings: nat) returns (f: Form)
    requires Parse(d, pos, strings).Parsed?
    ensures Explains(f, d, pos, strings, Parse(d, pos, strings))
    decreases |d| - pos, 0
  {
    hide Explains;
    if d[pos] == 16 || d[pos] == 17 {
      f := ContainerRead(d, pos, strings);
    } else if d[pos] <= 3 || 100 <= d[pos] < 150 {
      f := StringRead(d, pos, strings);
    } else if 4 <= d[pos] <= 7 || 150 <= d[pos] < 200 {
      f := RefRead(d, pos, strings);
    } else {
      f := OtherRead(d, pos, strings);
    }
  }

  ghost predicate ExplainsAll(fs: seq<Form>, d: octets, pos: nat, strings: nat, o: Outcome<seq<Tree>>) {
    && o.Parsed? && AllWritable(fs, strings) && MeantAll(fs) == o.v && AfterAll(fs, strings) == o.strings
    && Spans(d, pos, o.next, WriteAll(fs, strings) + [255])
  }

  lemma {:induction false} ContainerRead(d: octets, pos: nat, strings: nat) returns (f: Form)
    requires pos < |d| && d[pos] in {16, 17} && Parse(d, pos, strings).Parsed?
    ensures Explains(f, d, pos, strings, Parse(d, pos, strings))
    decreases |d| - pos - 1, 3
  {
    hide WriteAll, MeantAll, AfterAll, ParseItems, AllWritable, ToLe, FromLe;
    OneByte(d, pos);
    ParseOfContainer(d, pos, strings);
    var hash := d[pos] == 16;
    var o := ParseItems(d, pos + 1, strings, hash, true);
    var fs := ItemsRead(d, pos + 1, strings, hash, true);
    SpanInTwo(d, pos, pos + 1, o.next, [d[pos]], WriteAll(fs, strings) + [255]);
    assert [d[pos]] + (WriteAll(fs, strings) + [255]) == [d[pos]] + WriteAll(fs, strings) + [255];
    f := if hash then FHash(fs) else FArr(fs);
  }

  lemma {:induction false} ItemsRead(d: octets, pos: nat, strings: nat, hash: bool, first: bool) returns (fs: seq<Form>)
    requires ParseItems(d, pos, strings, hash, first).Parsed?
    ensures ExplainsAll(fs, d, pos, strings, ParseItems(d, pos, strings, hash, first))
    ensures |fs| == |ParseItems(d, pos, strings, hash, first).v|
    decreases |d| - pos, 2
  {
    hide Explains, ParseItem, Parse;
    if d[pos] == 255 {
      fs := [];
      NothingWritten(strings);
      OneByte(d, pos);
    } else {
      var o := ParseItem(d, pos, strings, hash);
      var rest := ItemsRead(d, o.next, o.strings, hash, false);
      fs := ItemRead(d, pos, strings, hash, rest);
    }
  }

  /** One more item, or key and value, before the others. */
  lemma {:induction false} ItemRead(d: octets, pos: nat, strings: nat, hash: bool, rest: seq<Form>) returns (fs: seq<Form>)
    requires ParseItem(d, pos, strings, hash).Parsed? && d[pos] != 255
    requires var o := ParseItem(d, pos, strings, hash);
             ExplainsAll(rest, d, o.next, o.strings, ParseItems(d, o.next, o.strings, hash, false))
    ensures var o := ParseItem(d, pos, strings, hash);
            ExplainsAll(fs, d, pos, strings, Prepend(o.v, ParseItems(d, o.next, o.strings, hash, false)))
    decreases |d| - pos, 1
  {
    hide ExplainsAll, Explains, ParseItems, Parse;
    var a := Parse(d, pos, strings);
    var f := ReadIsWritten(d, pos, strings);
    var all := ParseItems(d, ParseItem(d, pos, strings, hash).next, ParseItem(d, pos, strings, hash).strings, hash, false);
    if hash {
      var b := Parse(d, a.next, a.strings);
      var g := ReadIsWritten(d, a.next, a.strings);
      var tail := OneBefore(g, d, a.next, a.strings, b, rest, all);
      fs := OneBefore(f, d, pos, strings, a, tail, Prepend([b.v], all));
      PrependTwice([a.v], [b.v], all);
      assert [a.v] + [b.v] == [a.v, b.v];
    } else {
      fs := OneBefore(f, d, pos, strings, a, rest, all);
    }
  }

  lemma OneBefore(f: Form, d: octets, pos: nat, strings: nat, o: Outcome<Tree>, rest: seq<Form>, all: Outcome<seq<Tree>>)
    returns (fs: seq<Form>)
    requires Explains(f, d, pos, strings, o) && ExplainsAll(rest, d, o.next, o.strings, all)
    ensures fs == [f] + rest && ExplainsAll(fs, d, pos, strings, Prepend([o.v], all))
  {
    hide Write, Writable, Meant, After;
    fs := [f] + rest;
    assert fs[1..] == rest;
    SpanInTwo(d, pos, o.next, all.next, Write(f, strings), WriteAll(rest, o.strings) + [255]);
    assert Write(f, strings) + (WriteAll(rest, o.strings) + [255]) == WriteAll(fs, strings) + [255];
  }
}
