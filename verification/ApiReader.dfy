/** The resumable reader of results, over a socket that delivers bytes in whatever pieces it likes. */
module ApiReader {
  import opened ApiFormat
  import opened ApiParser
  import opened ApiWriter
  import opened Sequences

  const WOULDBLOCK: int := -2
  const SOCKET_ERROR: int := -1

  /** What a socket does when it is read: nothing yet, an error, the end, or some bytes, at least one and up to 1 + more. */
  datatype Delivery = Pending | Broken | Ended | Up(more: nat)

  /** A socket as its reader sees it: the bytes that were not read yet, and what it will do. */
  datatype Line = Line(incoming: octets, script: seq<Delivery>)

  /** The result of reading n bytes. Asking for nothing gives nothing, and bytes that were not sent yet do not come. */
  function Rd(l: Line, n: nat): (rd: int)
    ensures rd <= n && rd <= |l.incoming|
    ensures rd in {WOULDBLOCK, SOCKET_ERROR} || rd >= 0
  {
    if n == 0 then 0
    else if l.script == [] then WOULDBLOCK
    else
      match l.script[0]
      case Pending => WOULDBLOCK
      case Broken => SOCKET_ERROR
      case Ended => 0
      case Up(more) =>
        if l.incoming == [] then WOULDBLOCK
        else
          var m := if more + 1 < n then more + 1 else n;
          if m < |l.incoming| then m else |l.incoming|
  }

  /** The socket after it. */
  function AfterRd(l: Line, n: nat): Line {
    if n == 0 || l.script == [] then l
    else Line(if Rd(l, n) > 0 then l.incoming[Rd(l, n)..] else l.incoming, l.script[1..])
  }

  /** A non-blocking socket. What it will answer is fixed in advance, and arbitrary. */
  class Socket {
    var incoming: octets
    var script: seq<Delivery>

    constructor (incoming: octets, script: seq<Delivery>)
      ensures Now() == Line(incoming, script)
    {
      this.incoming, this.script := incoming, script;
    }

    function Now(): Line
      reads this
    {
      Line(incoming, script)
    }

    /** psock_read_noblock. */
    method ReadNoblock(buf: array<octet>, off: nat, n: nat) returns (rd: int)
      requires off + n <= buf.Length
      modifies this, buf
      ensures rd == Rd(old(Now()), n) && Now() == AfterRd(old(Now()), n)
      ensures rd > 0 ==> buf[..off + rd] == old(buf[..off]) + old(incoming)[..rd]
      ensures rd <= 0 ==> buf[..] == old(buf[..])
    {
      rd := Rd(Now(), n);
      if rd > 0 {
        forall i | off <= i < off + rd {
          buf[i] := incoming[i - off];
        }
        assert buf[..off + rd] == old(buf[..off]) + incoming[..rd];
      }
      var next := AfterRd(Now(), n);
      incoming, script := next.incoming, next.script;
    }
  }

  /** A message is complete when its length, and as many bytes, have arrived. */
  predicate Complete(m: octets) {
    |m| >= 4 && |m| == 4 + FromLe(m[..4])
  }

  /** More bytes of the same message are needed. */
  predicate Unfinished(m: octets) {
    |m| < 4 || |m| < 4 + FromLe(m[..4])
  }

  /** How many bytes the next read asks for: the rest of the length, or the rest of the message. */
  function Wanted(m: octets): (n: nat)
    requires Complete(m) || Unfinished(m)
  {
    if |m| < 4 then 4 - |m| else 4 + FromLe(m[..4]) - |m|
  }

  /** A call: whether it is ready, and failed, what has arrived of the message by then, and the socket after it. */
  datatype Called = Called(ready: bool, failed: bool, m: octets, line: Line)

  /** What a call does when `m` has arrived: it reads once, and once more when that completes the length. */
  function CallOf(m: octets, l: Line): (c: Called)
    requires Complete(m) || Unfinished(m)
    decreases |m| < 4
  {
    var rd, l2 := Rd(l, Wanted(m)), AfterRd(l, Wanted(m));
    if rd == WOULDBLOCK then Called(false, false, m, l2)
    else if rd <= 0 then Called(true, true, m, l2)
    else
      var m2 := m + l.incoming[..rd];
      if rd < Wanted(m) then Called(false, false, m2, l2)
      else if |m| < 4 then CallOf(m2, l2)
      else Called(true, false, m2, l2)
  }

  lemma MoreArrives(m: octets, piece: octets)
    requires (Complete(m) || Unfinished(m)) && |piece| <= Wanted(m)
    ensures Complete(m + piece) || Unfinished(m + piece)
    ensures |m| >= 4 ==> (m + piece)[..4] == m[..4]
    ensures |piece| < Wanted(m) ==> Unfinished(m + piece)
    ensures |m| >= 4 && |piece| == Wanted(m) ==> Complete(m + piece)
  {
    hide FromLe;
    if |m| >= 4 {
      assert (m + piece)[..4] == m[..4];
    }
  }

  /** How many deliveries a call has taken. */
  function Taken(l: Line, l2: Line): int {
    |l.script| - |l2.script|
  }

  /** The socket was closed, or broke, in the last delivery that was taken. */
  predicate Failure(l: Line, l2: Line) {
    0 < Taken(l, l2) <= |l.script| && l.script[Taken(l, l2) - 1] in {Broken, Ended}
  }

  /**
   * What a call c did after m: the bytes it took continue the message, it never took bytes of the next one, and it took
   * deliveries in order, one at least if there was one. It is ready exactly when it failed or the message is complete,
   * and it failed exactly when the socket did, or the message is empty.
   */
  predicate Explained(m: octets, l: Line, c: Called) {
    && |m| <= |c.m| <= |m| + |l.incoming|
    && c.m == m + l.incoming[..|c.m| - |m|] && c.line.incoming == l.incoming[|c.m| - |m|..]
    && (Complete(c.m) || Unfinished(c.m))
    && 0 <= Taken(l, c.line) <= 2 && Taken(l, c.line) <= |l.script| && c.line.script == l.script[Taken(l, c.line)..]
    && (c.ready <==> c.failed || Complete(c.m))
    && (c.failed <==> Failure(l, c.line) || (Complete(c.m) && |c.m| == 4))
  }

  lemma ReadIsExplained(m: octets, l: Line)
    requires Complete(m) || Unfinished(m)
    ensures var rd, l2 := Rd(l, Wanted(m)), AfterRd(l, Wanted(m));
            && (Wanted(m) > 0 && l.script != [] ==> l2.script == l.script[1..])
            && (Wanted(m) == 0 || l.script == [] ==> l2 == l)
            && (Wanted(m) == 0 ==> rd == 0) && rd <= Wanted(m) && rd <= |l.incoming|
            && (rd > 0 || rd in {WOULDBLOCK, SOCKET_ERROR, 0})
            && (rd in {SOCKET_ERROR, 0} && Wanted(m) > 0 <==> Failure(l, l2))
            && l2.incoming == l.incoming[if rd > 0 then rd else 0..]
            && (rd > 0 ==> l.script != [])
  {
    hide FromLe;
  }

  lemma NotBoth(m: octets)
    ensures !(Complete(m) && Unfinished(m))
    ensures (Complete(m) || Unfinished(m)) && Wanted(m) == 0 <==> Complete(m)
    ensures |m| < 4 ==> !Complete(m)
  {
  }

  /** A read that brings nothing. */
  lemma NothingRead(m: octets, l: Line)
    requires Unfinished(m) || (Complete(m) && |m| == 4)
    requires Rd(l, Wanted(m)) <= 0
    ensures Explained(m, l, CallOf(m, l)) && 0 <= Taken(l, CallOf(m, l).line) <= 1
    ensures Wanted(m) > 0 && l.script != [] ==> Taken(l, CallOf(m, l).line) == 1
  {
    hide FromLe, Rd, AfterRd, Complete, Unfinished, Failure, Wanted;
    ReadIsExplained(m, l);
    NotBoth(m);
    NothingFollows(m, l.incoming[..0]);
    assert l.incoming[0..] == l.incoming;
  }

  /** A call that stops after one read, which brings something. */
  lemma PieceRead(m: octets, l: Line)
    requires Complete(m) || Unfinished(m)
    requires Rd(l, Wanted(m)) > 0 && (|m| >= 4 || Rd(l, Wanted(m)) < Wanted(m))
    ensures Explained(m, l, CallOf(m, l)) && Taken(l, CallOf(m, l).line) == 1
  {
    hide FromLe, Rd, AfterRd, Complete, Unfinished, Failure, Wanted;
    ReadIsExplained(m, l);
    var piece := l.incoming[..Rd(l, Wanted(m))];
    MoreArrives(m, piece);
    NotBoth(m + piece);
  }

  lemma CallIsExplained(m: octets, l: Line)
    requires Unfinished(m)
    ensures Explained(m, l, CallOf(m, l)) && (l.script != [] ==> Taken(l, CallOf(m, l).line) > 0)
  {
    hide FromLe, Rd, AfterRd, Explained, Failure;
    ReadIsExplained(m, l);
    var rd, l2 := Rd(l, Wanted(m)), AfterRd(l, Wanted(m));
    if |m| < 4 && rd == Wanted(m) {
      var piece := l.incoming[..rd];
      MoreArrives(m, piece);
      if Rd(l2, Wanted(m + piece)) > 0 {
        PieceRead(m + piece, l2);
      } else {
        NothingRead(m + piece, l2);
      }
      SecondRead(m, l, piece, l2, CallOf(m + piece, l2));
    } else if rd > 0 {
      PieceRead(m, l);
    } else {
      NothingRead(m, l);
    }
  }

  lemma SecondRead(m: octets, l: Line, piece: octets, l2: Line, c: Called)
    requires Explained(m + piece, l2, c) && |piece| <= |l.incoming| && piece == l.incoming[..|piece|]
    requires l2.incoming == l.incoming[|piece|..] && l.script != [] && l2.script == l.script[1..]
    requires !Failure(l, l2) && Taken(l2, c.line) <= 1
    ensures Explained(m, l, c) && Taken(l, c.line) == 1 + Taken(l2, c.line)
  {
    hide Complete, Unfinished;
    var k := |c.m| - |m + piece|;
    assert l.incoming[..|piece| + k] == piece + l2.incoming[..k];
    ConcatAssoc(m, piece, l2.incoming[..k]);
  }

  lemma BodyGrows(m: octets, piece: octets)
    requires |m| >= 4
    ensures (m + piece)[..4] == m[..4] && (m + piece)[4..] == m[4..] + piece
  {
  }

  class Reader {
    var result: Reply
    var state: nat
    var bytesread: nat
    var bytestoread: nat
    const respsize: array<octet>
    var data: array<octet>
    /** The bytes of the current message that have arrived. */
    ghost var got: octets

    /** In the middle of a message; `got` may be all of its length, or all of an empty message. */
    ghost predicate Reading()
      reads this, respsize, data
    {
      && respsize.Length == 4
      && (state == 0 ==>
        && data == respsize && bytestoread == 4 && bytesread == |got| <= 4 && respsize[..bytesread] == got)
      && (state != 0 ==>
        && state == 1 && data != respsize && |got| == 4 + bytesread && respsize[..] == got[..4]
        && bytesread <= bytestoread == data.Length == FromLe(respsize[..]) && data[..bytesread] == got[4..])
    }

    ghost predicate Valid()
      reads this, respsize, data
    {
      Reading() && bytesread < bytestoread
    }

    predicate Initial()
      reads this
    {
      state == 0 && bytesread == 0 && bytestoread == 4 && data == respsize
    }

    /** papi_rdr_alloc. */
    constructor ()
      ensures Valid() && Initial() && fresh(respsize) && got == []
    {
      result := NullResult;
      state, bytesread, bytestoread, got := 0, 0, 4, [];
      var header := new octet[4](_ => 0);
      respsize, data := header, header;
    }

    method Reset()
      requires respsize.Length == 4
      modifies this`state, this`bytesread, this`bytestoread, this`data, this`got
      ensures Valid() && Initial() && got == []
    {
      state, bytesread, bytestoread, data, got := 0, 0, 4, respsize, [];
    }

    /**
     * papi_result_async: `failed` and `m` tell why it is ready, and what has arrived of the message. A call that is
     * ready leaves the reader as it was allocated, with the one-shot parse of the message, or nothing if it failed.
     */
    method ResultAsync(sock: Socket) returns (ready: bool, ghost failed: bool, ghost m: octets)
      requires Valid()
      modifies this, respsize, data, sock
      ensures Valid() && (data == old(data) || data == respsize || fresh(data))
      ensures Called(ready, failed, m, sock.Now()) == CallOf(old(got), old(sock.Now()))
      ensures Explained(old(got), old(sock.Now()), Called(ready, failed, m, sock.Now()))
      ensures got == if ready then [] else m
      ensures ready ==> Initial() && if failed then result == NullResult else IsResult(m[4..], result)
    {
      hide FromLe, IsResult, Reading, Complete, Unfinished, Wanted, Rd, AfterRd, Explained;
      ReadingFacts();
      failed, m := false, got;
      ghost var target := CallOf(got, sock.Now());
      CallIsExplained(got, sock.Now());
      while true
        invariant Reading() && (Complete(got) || Unfinished(got))
        invariant bytesread == bytestoread ==> state == 1 && bytestoread == 0
        invariant CallOf(got, sock.Now()) == target
        invariant data == old(data) || fresh(data)
        decreases 1 - state
      {
        ghost var before, line := got, sock.Now();
        ReadingFacts();
        var rd := ReadMore(sock);
        ReadIsExplained(before, line);
        ReadingFacts();
        m := got;
        if rd == WOULDBLOCK {
          return false, false, m;
        }
        if rd == SOCKET_ERROR || rd <= 0 {
          result := NullResult;
          Reset();
          return true, true, m;
        }
        if bytesread < bytestoread {
          return false, false, m;
        }
        if state == 0 {
          StartBody();
          ReadingFacts();
        } else {
          result := ParseResult(data[..]);
          Reset();
          return true, false, m;
        }
      }
    }

    lemma ReadingFacts()
      requires Reading()
      ensures respsize.Length == 4 && (state == 0 || state == 1) && bytesread <= bytestoread
      ensures bytesread < bytestoread ==> Unfinished(got)
      ensures state == 1 && bytesread == bytestoread ==> Complete(got) && data[..] == got[4..]
      ensures state == 0 ==> bytestoread == 4 && |got| == bytesread
      ensures state == 1 ==> |got| == 4 + bytesread
      ensures (Complete(got) || Unfinished(got)) && (state == 1 || |got| < 4) ==> Wanted(got) == bytestoread - bytesread
    {
    }

    /** One read, whose bytes belong to the message. */
    method ReadMore(sock: Socket) returns (rd: int)
      requires Reading()
      modifies this`bytesread, this`got, data, sock
      ensures Reading()
      ensures rd == Rd(old(sock.Now()), old(bytestoread - bytesread))
      ensures sock.Now() == AfterRd(old(sock.Now()), old(bytestoread - bytesread))
      ensures 0 <= rd <= |old(sock.incoming)| ==> got == old(got) + old(sock.incoming)[..rd]
      ensures rd <= 0 ==> got == old(got)
      ensures bytesread == old(bytesread) + if rd > 0 then rd else 0
    {
      hide FromLe, AfterRd;
      rd := sock.ReadNoblock(data, bytesread, bytestoread - bytesread);
      if rd > 0 {
        ghost var piece := old(sock.incoming)[..rd];
        if state == 1 {
          BodyGrows(got, piece);
        }
        bytesread := bytesread + rd;
        got := got + piece;
      }
    }

    /** The length is known: the rest of the message goes to a buffer of its own. */
    method StartBody()
      requires Reading() && state == 0 && bytesread == 4
      modifies this`state, this`bytesread, this`bytestoread, this`data
      ensures Reading() && state == 1 && bytesread == 0 && fresh(data)
    {
      state := 1;
      bytesread := 0;
      bytestoread := FromLe(respsize[..]);
      data := new octet[bytestoread](_ => 0);
      assert got[4..] == [] == data[..0];
    }
  }

  /** A call that completes an empty message fails; the null result it reports is what parsing the message would give. */
  lemma EmptyIsNull(m: octets, l: Line)
    requires Unfinished(m) && Complete(CallOf(m, l).m) && |CallOf(m, l).m| == 4
    ensures CallOf(m, l).ready && CallOf(m, l).failed && IsResult(CallOf(m, l).m[4..], NullResult)
  {
    hide CallOf;
    CallIsExplained(m, l);
  }

  // Whole sessions.

  /** A result on the wire: its length, and its bytes. */
  function Frame(b: octets): octets {
    ToLe(|b|, 4) + b
  }

  function Frames(bs: seq<octets>): octets {
    if bs == [] then [] else Frame(bs[0]) + Frames(bs[1..])
  }

  /** Results that the protocol can carry, and that are not empty. */
  predicate Sendable(bs: seq<octets>) {
    forall i :: 0 <= i < |bs| ==> 0 < |bs[i]| < 0x1_0000_0000
  }

  /** A connection that stays up. */
  predicate StaysUp(script: seq<Delivery>) {
    forall i :: 0 <= i < |script| ==> script[i] == Pending || script[i].Up?
  }

  /** How many deliveries bring something. */
  function Ups(script: seq<Delivery>): nat {
    if script == [] then 0 else (if script[0].Up? then 1 else 0) + Ups(script[1..])
  }

  lemma FrameIs(b: octets)
    requires |b| < 0x1_0000_0000
    ensures |Frame(b)| == 4 + |b| && FromLe(Frame(b)[..4]) == |b| && Frame(b)[4..] == b
  {
    hide FromLe, ToLe;
    LeWidth(|b|, 4);
    PowersOf256();
    FromToLe(|b|, 4);
  }

  /** A complete message at the start of the frames is the first frame. */
  lemma FirstFrame(m: octets, more: octets, bs: seq<octets>)
    requires Sendable(bs) && m + more == Frames(bs) && Complete(m)
    ensures bs != [] && m == Frame(bs[0]) && more == Frames(bs[1..])
  {
    hide FromLe, ToLe, Frame;
    FrameIs(bs[0]);
    var f, rest := Frame(bs[0]), Frames(bs[1..]);
    assert m[..4] == (m + more)[..4] == (f + rest)[..4] == f[..4];
    assert m == (m + more)[..|m|] == (f + rest)[..|f|] == f;
    assert more == (m + more)[|m|..] == (f + rest)[|f|..] == rest;
  }

  /** On a connection that stays up no call fails, and one that is ready has just the next frame. */
  lemma CallInSession(m: octets, l: Line, bs: seq<octets>)
    requires Unfinished(m) && StaysUp(l.script) && Sendable(bs) && m + l.incoming == Frames(bs)
    ensures var c := CallOf(m, l);
            && !c.failed && StaysUp(c.line.script)
            && (c.ready ==> bs != [] && c.m == Frame(bs[0]) && c.line.incoming == Frames(bs[1..]))
            && (!c.ready ==> Unfinished(c.m) && c.m + c.line.incoming == Frames(bs))
  {
    hide CallOf, FromLe, Frame, Frames, Complete, Unfinished;
    CallIsExplained(m, l);
    var c := CallOf(m, l);
    var n := |c.m| - |m|;
    ConcatAssoc(m, l.incoming[..n], l.incoming[n..]);
    assert l.incoming == l.incoming[..n] + l.incoming[n..];
    if Complete(c.m) {
      FirstFrame(c.m, c.line.incoming, bs);
      FrameIs(bs[0]);
    }
  }

  lemma ReadUses(l: Line, n: nat)
    requires StaysUp(l.script)
    ensures AfterRd(l, n).incoming != [] ==>
              |AfterRd(l, n).incoming| + Ups(l.script) <= |l.incoming| + Ups(AfterRd(l, n).script)
  {
  }

  /** As long as bytes are left, every delivery that is up brings at least one. */
  lemma CallUses(m: octets, l: Line)
    requires (Complete(m) || Unfinished(m)) && StaysUp(l.script)
    ensures var l2 := CallOf(m, l).line;
            l2.incoming != [] ==> |l2.incoming| + Ups(l.script) <= |l.incoming| + Ups(l2.script)
    decreases |m| < 4
  {
    hide FromLe, Ups, AfterRd, Rd;
    ReadIsExplained(m, l);
    ReadUses(l, Wanted(m));
    var rd, l2 := Rd(l, Wanted(m)), AfterRd(l, Wanted(m));
    if |m| < 4 && rd == Wanted(m) {
      MoreArrives(m, l.incoming[..rd]);
      CallUses(m + l.incoming[..rd], l2);
      CallIsExplained(m, l);
    }
  }

  lemma CallTakes(m: octets, l: Line)
    requires Unfinished(m) && l.script != []
    ensures |CallOf(m, l).line.script| < |l.script|
    ensures CallOf(m, l).line.incoming != [] ==> l.incoming != []
  {
    hide CallOf;
    CallIsExplained(m, l);
  }

  lemma NothingBefore(s: octets)
    ensures [] + s == s && Unfinished([])
  {
  }

  lemma NoUps()
    ensures Ups([]) == 0
  {
  }

  /** An unfinished message is not the start of a frame that is there in full. */
  lemma AllAnswered(m: octets, bs: seq<octets>)
    requires Sendable(bs) && Unfinished(m) && m + [] == Frames(bs)
    ensures bs == [] && m == []
  {
    hide FromLe, ToLe, Frame;
    assert m + [] == m;
    if bs != [] {
      FrameIs(bs[0]);
      HeadOf(Frame(bs[0]), Frames(bs[1..]));
    }
  }

  lemma HeadOf(f: octets, rest: octets)
    requires |f| >= 4
    ensures (f + rest)[..4] == f[..4]
  {
  }

  /**
   * A user who calls again and again, whatever pieces the bytes come in: the results are the one-shot parses of the
   * messages, in order and each once; what was read of the next message is part of that message; and as soon as as many
   * deliveries have brought something as there are bytes, every message has been answered and the reader is idle.
   */
  method Session(sock: Socket, ghost bs: seq<octets>) returns (reader: Reader, replies: seq<Reply>)
    requires Sendable(bs) && StaysUp(sock.script) && sock.incoming == Frames(bs)
    modifies sock
    ensures |replies| <= |bs| && forall i :: 0 <= i < |replies| ==> IsResult(bs[i], replies[i])
    ensures sock.script == [] && reader.got + sock.incoming == Frames(bs[|replies|..]) && Unfinished(reader.got)
    ensures Ups(old(sock.script)) >= |old(sock.incoming)| ==>
              |replies| == |bs| && sock.incoming == [] && reader.got == []
  {
    hide CallOf, Explained, FromLe, Frame, Frames, IsResult, Ups, StaysUp, Complete;
    reader := new Reader();
    replies := [];
    ghost var sum := Ups(sock.script) - |sock.incoming|;
    assert bs[0..] == bs;
    NothingBefore(sock.incoming);
    while sock.script != []
      invariant fresh(reader) && fresh(reader.respsize) && (fresh(reader.data) || reader.data == reader.respsize)
      invariant reader.Valid() && StaysUp(sock.script) && |replies| <= |bs|
      invariant forall i :: 0 <= i < |replies| ==> IsResult(bs[i], replies[i])
      invariant reader.got + sock.incoming == Frames(bs[|replies|..]) && Unfinished(reader.got)
      invariant sock.incoming != [] ==> sum <= Ups(sock.script) - |sock.incoming|
      decreases |sock.script|
    {
      ghost var line, todo := sock.Now(), bs[|replies|..];
      CallInSession(reader.got, line, todo);
      CallUses(reader.got, line);
      CallTakes(reader.got, line);
      var ready;
      ghost var failed, m;
      ready, failed, m := reader.ResultAsync(sock);
      if ready {
        FrameIs(todo[0]);
        NothingBefore(sock.incoming);
        assert todo[1..] == bs[|replies| + 1..] && todo[0] == bs[|replies|];
        replies := replies + [reader.result];
      }
    }
    if sum >= 0 {
      NoUps();
      AllAnswered(reader.got, bs[|replies|..]);
    }
  }
}
