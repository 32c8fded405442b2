/** The compressor library as a script of answers, and what the calls of one write get out of it. */
module Zlib {
  import opened Bytes
  import opened DeflateRing

  datatype Flush = NoFlush | PartialFlush | FlushEnd

  /** zlib's return codes; `Other` is any code that the source does not name. */
  datatype Code = Ok | BufError | StreamEnd | StreamError | DataError | Other

  /** What one call of deflate or inflate would do if it had all the room it wanted. */
  datatype Answer = Answer(code: Code, out: bytes, taken: nat)

  function Cut(s: bytes, n: nat): (r: bytes)
    ensures |r| <= n
  {
    if |s| <= n then s else s[..n]
  }

  /** The next answer, cut to the room there is. A call that makes no progress, or fails on its state, emits nothing. */
  function Reply(script: seq<Answer>, availIn: nat, availOut: nat): (a: Answer)
    ensures |a.out| <= availOut && a.taken <= availIn
    ensures a.code in {BufError, StreamError} ==> a.out == []
  {
    if script == [] then Answer(BufError, [], 0) else
      var a := script[0];
      Answer(a.code, if a.code in {BufError, StreamError} then [] else Cut(a.out, availOut),
             if a.taken <= availIn then a.taken else availIn)
  }

  function Rest(script: seq<Answer>): seq<Answer> {
    if script == [] then [] else script[1..]
  }

  /** The zlib stream. What it answers is fixed in advance, and arbitrary. */
  class Stream {
    var script: seq<Answer>
    var availIn: nat
    /** Everything the calls have written out, and whether one of them reported the end of the stream. */
    ghost var emitted: bytes
    ghost var ended: bool

    constructor (script: seq<Answer>)
      ensures this.script == script && availIn == 0 && emitted == [] && !ended
    {
      this.script, availIn, emitted, ended := script, 0, [], false;
    }

    method Step(availOut: nat) returns (code: Code, out: bytes)
      modifies this
      ensures var a := Reply(old(script), old(availIn), availOut);
              code == a.code && out == a.out && availIn == old(availIn) - a.taken
      ensures script == Rest(old(script)) && emitted == old(emitted) + out
      ensures ended <==> old(ended) || code == StreamEnd
    {
      var a := Reply(script, availIn, availOut);
      code, out := a.code, a.out;
      availIn := availIn - a.taken;
      script := Rest(script);
      emitted := emitted + out;
      ended := ended || code == StreamEnd;
    }
  }

  /** How a series of calls ends: the code it returns, all the compressor emitted, and the input it left. */
  datatype Run = Run(ret: Code, out: bytes, left: nat)

  /** The overflow buffer starts with one ring's size and doubles. */
  function Room(used: nat): (n: nat)
    ensures n > 0
  {
    if used == 0 then SIZE else used
  }

  /** The loop stops at the first call that fails or leaves room; running out of progress counts as success. */
  function OverflowRun(script: seq<Answer>, availIn: nat, used: nat): (r: Run)
    ensures r.ret != BufError && r.left <= availIn
    decreases |script|
  {
    var a := Reply(script, availIn, Room(used));
    var left := availIn - a.taken;
    if a.code == BufError then Run(Ok, [], left)
    else if a.code != Ok then Run(a.code, a.out, left)
    else if |a.out| < Room(used) then Run(Ok, a.out, left)
    else
      var r := OverflowRun(Rest(script), left, used + Room(used));
      r.(out := a.out + r.out)
  }

  datatype Fill = Fill(ret: Code, out: bytes, script: seq<Answer>, left: nat, more: bool)

  /** What writing makes the compressor put into the ring: a second call follows one that used up the room before a wrap. */
  function RingRun(script: seq<Answer>, availIn: nat, start: nat, end: nat): (f: Fill)
    requires start < SIZE && start <= end < start + SIZE
    ensures f.left <= availIn
  {
    var n := Space(start, end);
    var a := Reply(script, availIn, n);
    var left, script1, end1 := availIn - a.taken, Rest(script), end + |a.out|;
    if a.code == Ok && |a.out| == n && end1 < start + SIZE then
      var n2 := Space(start, end1);
      var b := Reply(script1, left, n2);
      Fill(if b.code == BufError then Ok else b.code, a.out + b.out, Rest(script1), left - b.taken, |b.out| == n2)
    else
      Fill(a.code, a.out, script1, left, |a.out| == n)
  }

  /** A flush that used up the ring goes on into the overflow buffer. */
  predicate Overflows(f: Fill, deflating: bool, flush: Flush) {
    f.ret == Ok && deflating && flush != NoFlush && f.more
  }

  /** How many of the emitted bytes a write throws away: all that its overflow loop got, if that ends with a failure. */
  function Lost(script: seq<Answer>, len: nat, start: nat, end: nat, deflating: bool, flush: Flush): nat
    requires start < SIZE && start <= end < start + SIZE
  {
    var f := RingRun(script, len, start, end);
    if !Overflows(f, deflating, flush) then 0 else
      var run := OverflowRun(f.script, f.left, 0);
      if run.ret == Ok then 0 else |run.out|
  }

  // What zlib promises of a stream that is being finished, or flushed.

  /** The room that a write offers before it turns to the overflow buffer. */
  function RingRooms(start: nat, end: nat): seq<nat>
    requires start < SIZE && start <= end < start + SIZE
  {
    var n := Space(start, end);
    if end + n < start + SIZE then [n, Space(start, end + n)] else [n]
  }

  /**
   * A stream that is being finished and has the bytes t left: each call emits as many of them as it has room for, and
   * says Z_OK while bytes remain and Z_STREAM_END once they are out. A call that fills its room with the last of them
   * may say either; after Z_OK the next one emits nothing and ends the stream. The calls offer first `rooms`, then the
   * rooms of the overflow buffer.
   */
  predicate Finishes(t: bytes, script: seq<Answer>, availIn: nat, rooms: seq<nat>, used: nat)
    decreases |t|
  {
    var room := if rooms == [] then Room(used) else rooms[0];
    var a := Reply(script, availIn, room);
    && room > 0 && a.out == Cut(t, room)
    && (a.code == StreamEnd || a.code == Ok) && (|t| < room ==> a.code == StreamEnd) && (|t| > room ==> a.code == Ok)
    && (a.code == Ok ==>
          Finishes(t[room..], Rest(script), availIn - a.taken, if rooms == [] then [] else rooms[1..],
                   if rooms == [] then used + room else used))
  }

  /** Finishing a stream from within the overflow loop ends it with a code for which the buffer is not kept. */
  lemma {:induction false} FinishingIsNotKept(t: bytes, script: seq<Answer>, availIn: nat, used: nat)
    requires Finishes(t, script, availIn, [], used)
    ensures OverflowRun(script, availIn, used).ret == StreamEnd && OverflowRun(script, availIn, used).out == t
    decreases |t|, |script|
  {
    hide Reply, Rest;
    var room := Room(used);
    var a := Reply(script, availIn, room);
    if a.code == Ok {
      FinishingIsNotKept(t[room..], Rest(script), availIn - a.taken, used + room);
      assert t == t[..room] + t[room..];
    }
  }

  lemma FirstRoom(t: bytes, script: seq<Answer>, availIn: nat, rooms: seq<nat>, used: nat)
    requires rooms != [] && Finishes(t, script, availIn, rooms, used)
    ensures var a := Reply(script, availIn, rooms[0]);
            && a.taken <= availIn && a.out == Cut(t, rooms[0]) && (a.code == StreamEnd || a.code == Ok)
            && (a.code == StreamEnd ==> |t| <= rooms[0])
            && (a.code == Ok ==>
                  |t| >= rooms[0] && Finishes(t[rooms[0]..], Rest(script), availIn - a.taken, rooms[1..], used))
  {
  }

  /** What the ring gets of a stream that is being finished: all of it, or all the ring has room for. */
  predicate InRing(t: bytes, f: Fill, n: nat) {
    && (f.ret == StreamEnd || f.ret == Ok)
    && (f.ret == StreamEnd ==> |t| <= n && f.out == t)
    && (f.ret == Ok ==> f.more && |t| >= n && f.out == t[..n] && Finishes(t[n..], f.script, f.left, [], 0))
  }

  lemma FinishingInRing(t: bytes, script: seq<Answer>, availIn: nat, start: nat, end: nat)
    requires start < SIZE && start <= end < start + SIZE
    requires Finishes(t, script, availIn, RingRooms(start, end), 0)
    ensures InRing(t, RingRun(script, availIn, start, end), SIZE - (end - start))
  {
    hide Rest, Finishes;
    var n := Space(start, end);
    FirstRoom(t, script, availIn, RingRooms(start, end), 0);
    if end + n < start + SIZE {
      if Reply(script, availIn, n).code == Ok {
        InSecondRoom(t, script, availIn, start, end);
      }
    } else {
      assert RingRooms(start, end)[1..] == [];
    }
  }

  lemma InSecondRoom(t: bytes, script: seq<Answer>, availIn: nat, start: nat, end: nat)
    requires start < SIZE && start <= end < start + SIZE && end + Space(start, end) < start + SIZE
    requires Reply(script, availIn, Space(start, end)).code == Ok
    requires Finishes(t, script, availIn, RingRooms(start, end), 0)
    ensures InRing(t, RingRun(script, availIn, start, end), SIZE - (end - start))
  {
    hide Rest, Finishes, Reply;
    var n, n2 := Space(start, end), Space(start, end + Space(start, end));
    FirstRoom(t, script, availIn, RingRooms(start, end), 0);
    assert RingRooms(start, end)[1..] == [n2];
    var left := availIn - Reply(script, availIn, n).taken;
    FirstRoom(t[n..], Rest(script), left, [n2], 0);
    assert n + n2 == SIZE - (end - start) && [n2][1..] == [];
    CutTwice(t, n, n2);
  }

  lemma CutTwice(t: bytes, n: nat, n2: nat)
    requires n <= |t|
    ensures Cut(t, n) + Cut(t[n..], n2) == Cut(t, n + n2) && |Cut(t, n)| == n
    ensures |t| >= n + n2 ==> |Cut(t[n..], n2)| == n2 && t[n..][n2..] == t[n + n2..]
  {
  }

  /** Finishing a stream that has t left loses exactly what the ring has no room for, and so nothing if and only if t fits. */
  lemma FinishingLosesTheExcess(t: bytes, script: seq<Answer>, len: nat, start: nat, end: nat)
    requires start < SIZE && start <= end < start + SIZE
    requires Finishes(t, script, len, RingRooms(start, end), 0)
    ensures var space := SIZE - (end - start);
            && Lost(script, len, start, end, true, FlushEnd) == (if |t| <= space then 0 else |t| - space)
            && (Lost(script, len, start, end, true, FlushEnd) == 0 <==> |t| <= space)
  {
    hide RingRun, OverflowRun, Finishes, RingRooms;
    var f, space := RingRun(script, len, start, end), SIZE - (end - start);
    FinishingInRing(t, script, len, start, end);
    if f.ret == Ok {
      FinishingIsNotKept(t[space..], f.script, f.left, 0);
    }
  }

  /** A flush that does not finish the stream only ever reports progress, or that there is none to make. */
  predicate FlushesOnly(script: seq<Answer>) {
    forall i :: 0 <= i < |script| ==> script[i].code in {Ok, BufError}
  }

  lemma {:induction false} FlushingIsKept(script: seq<Answer>, availIn: nat, used: nat)
    requires FlushesOnly(script)
    ensures OverflowRun(script, availIn, used).ret == Ok
    decreases |script|
  {
    var a := Reply(script, availIn, Room(used));
    if a.code == Ok && |a.out| == Room(used) {
      FlushingIsKept(Rest(script), availIn - a.taken, used + Room(used));
    }
  }

  /** Such a flush loses nothing, however much it leaves for the overflow buffer; nor does a write without a flush. */
  lemma FlushingLosesNothing(script: seq<Answer>, len: nat, start: nat, end: nat, deflating: bool, flush: Flush)
    requires start < SIZE && start <= end < start + SIZE
    requires FlushesOnly(script) || flush == NoFlush || !deflating
    ensures Lost(script, len, start, end, deflating, flush) == 0
  {
    hide OverflowRun;
    var f := RingRun(script, len, start, end);
    if FlushesOnly(script) {
      FlushingIsKept(f.script, f.left, 0);
    }
  }

  /** The overflow buffer is allocated but stays empty: its first call says Z_OK and emits nothing. */
  predicate EmptyOverflow(script: seq<Answer>, availIn: nat) {
    var a := Reply(script, availIn, SIZE);
    a.code == Ok && a.out == []
  }

  /**
   * zlib's contract for the calls of a write that flushes. Z_OK means progress: the call took input or emitted
   * something. And if it left room, it held back nothing of the input it took.
   */
  predicate Progresses(script: seq<Answer>, availIn: nat, rooms: seq<nat>, used: nat)
    decreases |script|
  {
    var room := if rooms == [] then Room(used) else rooms[0];
    var a := Reply(script, availIn, room);
    a.code == Ok ==>
      && (a.taken > 0 || a.out != [])
      && (a.taken > 0 && |a.out| < room ==> a.out != [])
      && (|a.out| == room ==>
            Progresses(Rest(script), availIn - a.taken, if rooms == [] then [] else rooms[1..],
                       if rooms == [] then used + room else used))
  }

  /** The contract is claimed of writes that flush, and only of those. */
  predicate KeepsContract(script: seq<Answer>, len: nat, start: nat, end: nat, deflating: bool, flush: Flush)
    requires start < SIZE && start <= end < start + SIZE
  {
    deflating && flush != NoFlush ==> Progresses(script, len, RingRooms(start, end), 0)
  }

  lemma FirstProgress(script: seq<Answer>, availIn: nat, rooms: seq<nat>, used: nat)
    requires rooms != [] && Progresses(script, availIn, rooms, used)
    ensures var a := Reply(script, availIn, rooms[0]);
            a.taken <= availIn && (a.code == Ok && |a.out| == rooms[0] ==>
                                     Progresses(Rest(script), availIn - a.taken, rooms[1..], used))
  {
  }

  /** Under that contract an overflow buffer never stays empty. */
  lemma OverflowIsNotEmpty(script: seq<Answer>, availIn: nat, start: nat, end: nat, deflating: bool, flush: Flush)
    requires start < SIZE && start <= end < start + SIZE
    requires KeepsContract(script, availIn, start, end, deflating, flush)
    requires Overflows(RingRun(script, availIn, start, end), deflating, flush)
    ensures var f := RingRun(script, availIn, start, end); !EmptyOverflow(f.script, f.left)
  {
    hide Rest, Progresses, Reply;
    var n, f := Space(start, end), RingRun(script, availIn, start, end);
    var a := Reply(script, availIn, n);
    FirstProgress(script, availIn, RingRooms(start, end), 0);
    if end + n < start + SIZE {
      var n2 := Space(start, end + n);
      assert RingRooms(start, end)[1..] == [n2];
      FirstProgress(Rest(script), availIn - a.taken, [n2], 0);
      assert [n2][1..] == [];
    } else {
      assert RingRooms(start, end)[1..] == [];
    }
    EmitsInOverflow(f.script, f.left);
  }

  lemma EmitsInOverflow(script: seq<Answer>, availIn: nat)
    requires Progresses(script, availIn, [], 0)
    ensures !EmptyOverflow(script, availIn)
  {
  }

  /** Finishing a stream keeps to that contract. */
  lemma {:induction false} FinishingProgresses(t: bytes, script: seq<Answer>, availIn: nat, rooms: seq<nat>, used: nat)
    requires Finishes(t, script, availIn, rooms, used)
    ensures Progresses(script, availIn, rooms, used)
    decreases |t|
  {
    var room := if rooms == [] then Room(used) else rooms[0];
    var a := Reply(script, availIn, room);
    if a.code == Ok {
      FinishingProgresses(t[room..], Rest(script), availIn - a.taken, if rooms == [] then [] else rooms[1..],
                          if rooms == [] then used + room else used);
    }
  }

  /** A finish that leaves more data expected has used up a room with its last byte. */
  lemma EndFillsRoom(t: bytes, script: seq<Answer>, availIn: nat, start: nat, end: nat)
    requires start < SIZE && start <= end < start + SIZE
    requires Finishes(t, script, availIn, RingRooms(start, end), 0)
    ensures var f := RingRun(script, availIn, start, end);
            f.ret == StreamEnd && f.more ==> |t| == Space(start, end) || |t| == SIZE - (end - start)
  {
    hide Rest, Finishes;
    var n := Space(start, end);
    FirstRoom(t, script, availIn, RingRooms(start, end), 0);
    if end + n < start + SIZE && Reply(script, availIn, n).code == Ok {
      var n2 := Space(start, end + n);
      assert RingRooms(start, end)[1..] == [n2];
      FirstRoom(t[n..], Rest(script), availIn - Reply(script, availIn, n).taken, [n2], 0);
    }
  }

  /**
   * What a write that finishes the stream does: with t left, it loses the excess of t over the room in the ring, and so
   * nothing if and only if t fits. The stream has ended, and more data is expected only if a room was used up exactly.
   */
  ghost predicate FinishedWrite(script: seq<Answer>, len: nat, start: nat, end: nat, lost: int, ended: bool, more: bool)
    requires start < SIZE && start <= end < start + SIZE
  {
    forall t | Finishes(t, script, len, RingRooms(start, end), 0) ::
      var space := SIZE - (end - start);
      && lost == (if |t| <= space then 0 else |t| - space) && (lost == 0 <==> |t| <= space)
      && ended && (more ==> |t| == Space(start, end) || |t| == space)
  }
}
