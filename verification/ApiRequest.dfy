/** The request serialiser, and a reader of requests that shows what it preserves. */
module ApiRequest {
  import opened ApiFormat
  import opened ApiWriter
  import opened Options
  import opened WordSizes

  type Word = n: nat | n < TWO_TO_64

  /** The bits of a 64-bit length other than -1, which stands for none. */
  type DataLength = n: nat | n < TWO_TO_64 - 1

  datatype Param =
    | StrParam(name: octets, s: octets)
    | NumParam(name: octets, n: Word)
    | BoolParam(name: octets, n: Word)
  {
    function Type(): nat {
      match this
      case StrParam(_, _) => 0
      case NumParam(_, _) => 1
      case BoolParam(_, _) => 2
    }
  }

  datatype Request = Request(command: octets, params: seq<Param>, datalen: Option<DataLength>)

  /** What the sizing loop adds for a parameter. */
  function ParamLength(p: Param): nat {
    match p
    case StrParam(name, s) => |name| + |s| + 5
    case NumParam(name, _) => |name| + 1 + 8
    case BoolParam(name, _) => |name| + 2
  }

  function ParamsLength(ps: seq<Param>): nat {
    if ps == [] then 0 else ParamsLength(ps[..|ps| - 1]) + ParamLength(ps[|ps| - 1])
  }

  function RequestLength(r: Request): nat {
    |r.command| + 2 + (if r.datalen.Some? then 8 else 0) + ParamsLength(r.params)
  }

  function ParamBytes(p: Param): (s: octets)
    ensures |s| == ParamLength(p)
  {
    [TypeByte(p)] + (p.name + BodyBytes(p))
  }

  /** Type and name length share a byte. */
  function TypeByte(p: Param): octet {
    (p.Type() * 64 + |p.name|) % 256
  }

  function BodyBytes(p: Param): (s: octets)
    ensures |s| == ParamLength(p) - 1 - |p.name|
  {
    match p
    case StrParam(_, s) => ToLe(|s|, 4) + s
    case NumParam(_, n) => ToLe(n, 8)
    case BoolParam(_, n) => [n % 2]
  }

  function ParamsBytes(ps: seq<Param>): (s: octets)
    ensures |s| == ParamsLength(ps)
  {
    if ps == [] then [] else ParamsBytes(ps[..|ps| - 1]) + ParamBytes(ps[|ps| - 1])
  }

  /** A byte with its top bit set. */
  function WithTopBit(n: nat): octet {
    if n % 256 < 128 then n % 256 + 128 else n % 256
  }

  function HeadBytes(r: Request): (s: octets)
    ensures |s| == 4 + |r.command| + if r.datalen.Some? then 8 else 0
  {
    ToLe(RequestLength(r), 2) + LengthBytes(r) + r.command + [|r.params| % 256]
  }

  /** The length of the command, with the length of the data if there is any. */
  function LengthBytes(r: Request): (s: octets)
    ensures |s| == if r.datalen.Some? then 9 else 1
  {
    if r.datalen.Some? then [WithTopBit(|r.command|)] + ToLe(r.datalen.value, 8) else [|r.command| % 256]
  }

  /** The message. Its first two bytes are the length of the rest. */
  function Encode(r: Request): (s: octets)
    ensures |s| == RequestLength(r) + 2
  {
    HeadBytes(r) + ParamsBytes(r.params)
  }

  /** A reader of parameters: `n` of them, which have to reach the end of the message. */
  function ReadParams(d: octets, pos: nat, n: nat): Option<seq<Param>>
    decreases n
  {
    if n == 0 then (if pos == |d| then Some([]) else None)
    else if pos >= |d| then None
    else
      match ReadParam(d, pos)
      case None => None
      case Some((p, next)) =>
        match ReadParams(d, next, n - 1)
        case None => None
        case Some(ps) => Some([p] + ps)
  }

  function ReadParam(d: octets, pos: nat): (r: Option<(Param, nat)>)
    requires pos < |d|
  {
    var at := pos + 1 + d[pos] % 64;
    if at > |d| then None else ReadBody(d, at, d[pos] / 64, d[pos + 1..at])
  }

  function ReadBody(d: octets, at: nat, kind: nat, name: octets): (r: Option<(Param, nat)>)
    requires at <= |d|
  {
    if kind == 0 then
      if at + 4 > |d| || at + 4 + FromLe(d[at..at + 4]) > |d| then None
      else
        var end := at + 4 + FromLe(d[at..at + 4]);
        Some((StrParam(name, d[at + 4..end]), end))
    else if kind == 1 then
      if at + 8 > |d| || FromLe(d[at..at + 8]) >= TWO_TO_64 then None
      else Some((NumParam(name, FromLe(d[at..at + 8])), at + 8))
    else if kind == 2 then
      if at + 1 > |d| || d[at] > 1 then None else Some((BoolParam(name, d[at]), at + 1))
    else None
  }

  /** The reference reader. */
  function Decode(d: octets): Option<Request> {
    if |d| < 3 || FromLe(d[..2]) != |d| - 2 then None else
      var hasData, len := d[2] >= 128, d[2] % 128;
      var at := if hasData then 11 else 3;
      if at + len + 1 > |d| then None else
        var datalen := if hasData then FromLe(d[3..11]) else 0;
        if datalen >= TWO_TO_64 - 1 then None else
          match ReadParams(d, at + len + 1, d[at + len])
          case None => None
          case Some(ps) => Some(Request(d[at..at + len], ps, if hasData then Some(datalen) else None))
  }

  /** What the wire format has room for. */
  predicate ParamFits(p: Param) {
    |p.name| < 64 && (p.BoolParam? ==> p.n < 2) && (p.StrParam? ==> |p.s| < TWO_TO_32)
  }

  predicate Fits(r: Request) {
    && |r.command| < 128
    && |r.params| < 256
    && forall i | 0 <= i < |r.params| :: ParamFits(r.params[i])
  }

  lemma ReadWrittenBody(p: Param, d: octets, at: nat)
    requires ParamFits(p) && StandsAt(d, at, BodyBytes(p))
    ensures ReadBody(d, at, p.Type(), p.name) == Some((p, at + |BodyBytes(p)|))
  {
    hide FromLe, ToLe;
    PowersOf256();
    match p
    case StrParam(_, s) =>
      LeWidth(|s|, 4);
      StandsInTwo(d, at, ToLe(|s|, 4), s);
      NumberAt(d, at, |s|, 4);
    case NumParam(_, n) =>
      LeWidth(n, 8);
      NumberAt(d, at, n, 8);
    case BoolParam(_, n) =>
      assert d[at] == d[at..at + 1][0];
  }

  lemma TypeByteRead(p: Param)
    requires ParamFits(p)
    ensures TypeByte(p) % 64 == |p.name| && TypeByte(p) / 64 == p.Type()
  {
  }

  lemma ReadWrittenParam(p: Param, d: octets, pos: nat)
    requires ParamFits(p) && StandsAt(d, pos, ParamBytes(p))
    ensures pos < |d| && ReadParam(d, pos) == Some((p, pos + ParamLength(p)))
  {
    hide ReadBody, BodyBytes, TypeByte;
    ParamBytesLength(p);
    TypeByteRead(p);
    StandsInTwo(d, pos, [TypeByte(p)], p.name + BodyBytes(p));
    StandsInTwo(d, pos + 1, p.name, BodyBytes(p));
    assert d[pos] == d[pos..pos + 1][0];
    ReadWrittenBody(p, d, pos + 1 + |p.name|);
  }

  lemma {:induction false} ParamsBytesAppend(a: seq<Param>, b: seq<Param>)
    ensures ParamsBytes(a + b) == ParamsBytes(a) + ParamsBytes(b)
    decreases |b|
  {
    hide ParamBytes;
    if b == [] {
      assert a + b == a;
    } else {
      var k := |b| - 1;
      assert (a + b)[..|a + b| - 1] == a + b[..k];
      ParamsBytesAppend(a, b[..k]);
    }
  }

  lemma ParamsBytesFirst(ps: seq<Param>)
    requires ps != []
    ensures ParamsBytes(ps) == ParamBytes(ps[0]) + ParamsBytes(ps[1..])
  {
    hide ParamBytes;
    assert ps == [ps[0]] + ps[1..] && [ps[0]][..0] == [];
    ParamsBytesAppend([ps[0]], ps[1..]);
  }

  lemma {:induction false} ReadWrittenParams(ps: seq<Param>, d: octets, pos: nat)
    requires forall i | 0 <= i < |ps| :: ParamFits(ps[i])
    requires StandsAt(d, pos, ParamsBytes(ps)) && pos + |ParamsBytes(ps)| == |d|
    ensures ReadParams(d, pos, |ps|) == Some(ps)
    decreases |ps|
  {
    hide ParamBytes, ReadParam, ParamFits, ParamsBytes, ParamLength;
    if ps == [] {
      NoParams();
    } else {
      ParamsBytesFirst(ps);
      StandsInTwo(d, pos, ParamBytes(ps[0]), ParamsBytes(ps[1..]));
      ParamBytesLength(ps[0]);
      ReadWrittenParam(ps[0], d, pos);
      ReadWrittenParams(ps[1..], d, pos + ParamLength(ps[0]));
      assert [ps[0]] + ps[1..] == ps;
    }
  }

  lemma ParamBytesLength(p: Param)
    ensures |ParamBytes(p)| == ParamLength(p) && |BodyBytes(p)| == ParamLength(p) - 1 - |p.name|
  {
  }

  lemma HeadWritten(r: Request, d: octets)
    requires |r.command| < 128 && |r.params| < 256 && RequestLength(r) <= 0xffff && StandsAt(d, 0, HeadBytes(r))
    ensures var at := if r.datalen.Some? then 11 else 3;
            && at + |r.command| + 1 == |HeadBytes(r)| <= |d|
            && FromLe(d[..2]) == RequestLength(r)
            && d[2] == |r.command| + (if r.datalen.Some? then 128 else 0)
            && (r.datalen.Some? ==> FromLe(d[3..11]) == r.datalen.value)
            && d[at..at + |r.command|] == r.command && d[at + |r.command|] == |r.params|
  {
    hide FromLe, ToLe, RequestLength, LengthBytes;
    LeWidth(RequestLength(r), 2);
    Power2();
    var mid := LengthBytes(r);
    var tail := r.command + [|r.params| % 256];
    assert |mid| == if r.datalen.Some? then 9 else 1 by { LengthBytesSize(r); }
    assert HeadBytes(r) == ToLe(RequestLength(r), 2) + (mid + tail);
    StandsInTwo(d, 0, ToLe(RequestLength(r), 2), mid + tail);
    NumberAt(d, 0, RequestLength(r), 2);
    StandsInTwo(d, 2, mid, tail);
    LengthsWritten(r, d);
    var at := 2 + |mid|;
    StandsInTwo(d, at, r.command, [|r.params| % 256]);
    assert d[at + |r.command|] == d[at + |r.command|..at + |r.command| + 1][0];
  }

  lemma LengthBytesSize(r: Request)
    ensures |LengthBytes(r)| == if r.datalen.Some? then 9 else 1
  {
  }

  lemma LengthsWritten(r: Request, d: octets)
    requires |r.command| < 128 && StandsAt(d, 2, LengthBytes(r))
    ensures |d| > 2 && d[2] == |r.command| + (if r.datalen.Some? then 128 else 0)
    ensures r.datalen.Some? ==> |d| >= 11 && FromLe(d[3..11]) == r.datalen.value
  {
    hide FromLe, ToLe;
    PowersOf256();
    assert d[2] == d[2..2 + |LengthBytes(r)|][0];
    if r.datalen.Some? {
      LeWidth(r.datalen.value, 8);
      StandsInTwo(d, 2, [WithTopBit(|r.command|)], ToLe(r.datalen.value, 8));
      NumberAt(d, 3, r.datalen.value, 8);
    }
  }

  lemma Power2()
    ensures Power256(2) == 0x1_0000
  {
  }

  lemma DecodeFits(d: octets)
    requires |d| <= 0x1_0001
    ensures Decode(d).Some? ==> Fits(Decode(d).value)
  {
    hide FromLe;
    if Decode(d).Some? {
      var len := d[2] % 128;
      var at := if d[2] >= 128 then 11 else 3;
      ReadParamsFit(d, at + len + 1, d[at + len]);
    }
  }

  lemma {:induction false} ReadParamsFit(d: octets, pos: nat, n: nat)
    requires |d| <= 0x1_0001
    ensures var r := ReadParams(d, pos, n);
            r.Some? ==> |r.value| == n && forall i | 0 <= i < n :: ParamFits(r.value[i])
    decreases n
  {
    hide FromLe;
    if ReadParams(d, pos, n).Some? && n > 0 {
      ReadParamsFit(d, ReadParam(d, pos).value.1, n - 1);
    }
  }

  lemma DecodeWritten(r: Request, d: octets)
    requires Fits(r) && RequestLength(r) <= 0xffff && d == Encode(r)
    ensures Decode(d) == Some(r)
  {
    hide FromLe, ToLe, HeadBytes, ParamsBytes, ReadParams, Encode, RequestLength;
    EncodedLength(r);
    HeadWritten(r, d);
    ReadWrittenParams(r.params, d, |HeadBytes(r)|);
  }

  lemma EncodedLength(r: Request)
    ensures |Encode(r)| == RequestLength(r) + 2 == |HeadBytes(r)| + |ParamsBytes(r.params)|
    ensures StandsAt(Encode(r), 0, HeadBytes(r)) && StandsAt(Encode(r), |HeadBytes(r)|, ParamsBytes(r.params))
  {
    hide HeadBytes, ParamsBytes;
    StandsInTwo(Encode(r), 0, HeadBytes(r), ParamsBytes(r.params));
  }

  /** A message of at most 0xffff bytes is read back exactly when everything in it fits its field. */
  lemma DecodeEncode(r: Request)
    requires RequestLength(r) <= 0xffff
    ensures Decode(Encode(r)) == Some(r) <==> Fits(r)
  {
    hide Decode, HeadBytes, ParamsBytes, Encode;
    EncodedLength(r);
    if Fits(r) {
      DecodeWritten(r, Encode(r));
    } else {
      DecodeFits(Encode(r));
    }
  }

  /** Different requests that fit are different messages. */
  lemma EncodeInjective(a: Request, b: Request)
    requires Fits(a) && Fits(b) && RequestLength(a) <= 0xffff && RequestLength(b) <= 0xffff
    requires Encode(a) == Encode(b)
    ensures a == b
  {
    DecodeEncode(a);
    DecodeEncode(b);
  }

  /** papi_prepare: a sizing loop, an allocation, and a moving pointer that must end where the sizing loop said. */
  method Prepare(r: Request, additionalalloc: nat) returns (sdata: array?<octet>)
    ensures sdata == null <==> RequestLength(r) > 0xffff
    ensures sdata != null ==> fresh(sdata) && sdata.Length == RequestLength(r) + 2 + additionalalloc
    ensures sdata != null ==> sdata[..RequestLength(r) + 2] == Encode(r)
  {
    hide ParamLength, ParamBytes, HeadBytes;
    var plen := |r.command| + 2;
    if r.datalen.Some? {
      plen := plen + 8;
    }
    ghost var fixed := plen;
    for i := 0 to |r.params|
      invariant plen == fixed + ParamsLength(r.params[..i])
    {
      assert r.params[..i + 1][..i] == r.params[..i];
      plen := plen + ParamLength(r.params[i]);
    }
    assert r.params[..|r.params|] == r.params;
    if plen > 0xffff {
      return null;
    }
    var buf := new octet[plen + 2 + additionalalloc](_ => 0);
    var pos := WriteHead(buf, r, plen);
    pos := WriteParams(buf, pos, r.params);
    return buf;
  }

  method WriteHead(buf: array<octet>, r: Request, plen: nat) returns (pos: nat)
    requires plen == RequestLength(r) && |HeadBytes(r)| <= buf.Length
    modifies buf
    ensures pos == |HeadBytes(r)| && buf[..pos] == HeadBytes(r)
  {
    hide ToLe, RequestLength, LengthBytes;
    LeWidth(plen, 2);
    LengthBytesSize(r);
    pos := Append(buf, 0, ToLe(plen, 2));
    pos := WriteLengths(buf, pos, r);
    pos := Append(buf, pos, r.command);
    pos := Append(buf, pos, [|r.params| % 256]);
    assert buf[..pos] == HeadBytes(r);
  }

  method WriteLengths(buf: array<octet>, at: nat, r: Request) returns (pos: nat)
    requires at + |LengthBytes(r)| <= buf.Length
    modifies buf
    ensures pos == at + |LengthBytes(r)| && buf[..pos] == old(buf[..at]) + LengthBytes(r)
  {
    hide ToLe;
    if r.datalen.Some? {
      LeWidth(r.datalen.value, 8);
      pos := Append(buf, at, [WithTopBit(|r.command|)]);
      pos := Append(buf, pos, ToLe(r.datalen.value, 8));
    } else {
      pos := Append(buf, at, [|r.command| % 256]);
    }
  }

  method WriteParams(buf: array<octet>, start: nat, ps: seq<Param>) returns (pos: nat)
    requires start + ParamsLength(ps) <= buf.Length
    modifies buf
    ensures pos == start + ParamsLength(ps) && buf[..pos] == old(buf[..start]) + ParamsBytes(ps)
  {
    hide ParamBytes, ParamLength, ParamsBytes, ParamsLength;
    NoParams();
    pos := start;
    for i := 0 to |ps|
      invariant pos == start + ParamsLength(ps[..i]) && pos <= buf.Length
      invariant buf[..pos] == old(buf[..start]) + ParamsBytes(ps[..i])
    {
      OneMoreParam(ps, i);
      pos := WriteParam(buf, pos, ps[i]);
    }
    assert ps[..|ps|] == ps;
  }

  lemma NoParams()
    ensures ParamsLength([]) == 0 && ParamsBytes([]) == []
  {
  }

  lemma OneMoreParam(ps: seq<Param>, i: nat)
    requires i < |ps|
    ensures ParamsLength(ps[..i + 1]) == ParamsLength(ps[..i]) + ParamLength(ps[i]) <= ParamsLength(ps)
    ensures forall s: octets :: s + ParamsBytes(ps[..i]) + ParamBytes(ps[i]) == s + ParamsBytes(ps[..i + 1])
  {
    hide ParamBytes, ParamLength;
    assert ps[..i + 1][..i] == ps[..i];
    LengthGrows(ps, i + 1);
  }

  lemma {:induction false} LengthGrows(ps: seq<Param>, i: nat)
    requires i <= |ps|
    ensures ParamsLength(ps[..i]) <= ParamsLength(ps)
    decreases |ps|
  {
    hide ParamLength;
    if i == |ps| {
      assert ps[..i] == ps;
    } else {
      LengthGrows(ps[..|ps| - 1], i);
      assert ps[..|ps| - 1][..i] == ps[..i];
    }
  }

  method WriteParam(buf: array<octet>, start: nat, p: Param) returns (pos: nat)
    requires start + ParamLength(p) <= buf.Length
    modifies buf
    ensures pos == start + ParamLength(p) && buf[..pos] == old(buf[..start]) + ParamBytes(p)
  {
    hide ToLe, BodyBytes;
    var at := Append(buf, start, [TypeByte(p)]);
    at := Append(buf, at, p.name);
    ParamBytesLength(p);
    pos := WriteBody(buf, at, p);
  }

  /** The switch over the parameter's type. */
  method WriteBody(buf: array<octet>, at: nat, p: Param) returns (pos: nat)
    requires at + |BodyBytes(p)| <= buf.Length
    modifies buf
    ensures pos == at + |BodyBytes(p)| && buf[..pos] == old(buf[..at]) + BodyBytes(p)
  {
    hide ToLe;
    match p {
      case StrParam(_, s) =>
        LeWidth(|s|, 4);
        pos := Append(buf, at, ToLe(|s|, 4));
        pos := Append(buf, pos, s);
      case NumParam(_, n) =>
        LeWidth(n, 8);
        pos := Append(buf, at, ToLe(n, 8));
      case BoolParam(_, n) =>
        pos := Append(buf, at, [n % 2]);
    }
  }

  /** memcpy to the moving pointer, which advances. It has to stay inside the allocation. */
  method Append(buf: array<octet>, pos: nat, s: octets) returns (next: nat)
    requires pos + |s| <= buf.Length
    modifies buf
    ensures next == pos + |s| && buf[..next] == old(buf[..pos]) + s
  {
    next := pos + |s|;
    forall i | pos <= i < next {
      buf[i] := s[i - pos];
    }
  }

  /** A parameter on the wire: its type in the two high bits of the byte that holds the length of its name. */
  lemma ParamOnWire(p: Param)
    requires |p.name| < 64 && (p.BoolParam? ==> p.n < 2)
    ensures ParamBytes(p) == match p
                             case StrParam(name, s) => [|name|] + name + ToLe(|s|, 4) + s
                             case NumParam(name, n) => [64 + |name|] + name + ToLe(n, 8)
                             case BoolParam(name, n) => [128 + |name|] + name + [n]
  {
    hide ToLe;
    var head := [TypeByte(p)];
    match p
    case StrParam(name, s) => assert head + (name + (ToLe(|s|, 4) + s)) == head + name + ToLe(|s|, 4) + s;
    case NumParam(name, n) => assert head + (name + ToLe(n, 8)) == head + name + ToLe(n, 8);
    case BoolParam(name, n) => assert head + (name + [n % 2]) == head + name + [n];
  }

  /** A request on the wire: the length of what follows it, the command, the number of parameters, and those. */
  lemma RequestOnWire(r: Request)
    requires |r.command| < 128 && |r.params| < 256
    ensures var lengths := match r.datalen
                           case Some(n) => [128 + |r.command|] + ToLe(n, 8)
                           case None => [|r.command|];
            Encode(r) == ToLe(|Encode(r)| - 2, 2) + lengths + r.command + [|r.params|] + ParamsBytes(r.params)
  {
    hide ToLe, ParamsBytes, RequestLength;
  }

  /** One parameter after the other. */
  lemma ParamsOnWire(ps: seq<Param>)
    ensures ParamsBytes(ps) == if ps == [] then [] else ParamBytes(ps[0]) + ParamsBytes(ps[1..])
  {
    hide ParamBytes;
    if ps != [] {
      ParamsBytesFirst(ps);
    }
  }
}
