/** The compressor behind a ring of 4096 bytes, with an overflow buffer for what a flush leaves over. */
module Deflate {
  import opened Bytes
  import opened DeflateRing
  import opened Sequences
  import opened Zlib

  const NODATA: int := -1
  const FULL: int := -2
  const ERROR: int := -3
  const EOF: int := 0

  lemma OverflowStep(delivered: bytes, ring: bytes, b: bytes, i: nat, k: nat, j: nat)
    requires ring == [] && i <= k <= j <= |b|
    ensures delivered + ring + b[i..j] == delivered + b[i..k] + ring + b[k..j]
    ensures k == j ==> delivered + ring + b[i..j] == delivered + b[i..k] + ring + []
  {
    assert b[i..j] == b[i..k] + b[k..j];
  }

  /** Handing out the oldest bytes keeps the order of the rest. */
  lemma FifoStep(delivered: bytes, taken: bytes, rest: bytes, over: bytes, ring: bytes)
    requires ring == taken + rest || (ring == taken && rest == [])
    ensures delivered + ring + over == delivered + taken + rest + over
  {
    ConcatAssoc(delivered, taken, rest);
    NothingFollows(taken, []);
  }

  /** realloc to twice the size. */
  method Grow(small: array<byte>, used: nat) returns (grown: array<byte>)
    requires small.Length == used > 0
    ensures fresh(grown) && grown.Length == 2 * used && grown[..used] == small[..]
  {
    grown := new byte[2 * used];
    Store(grown, 0, small[..]);
  }

  /** One call of the compressor behind the first `used` bytes of the buffer. */
  method StepInto(stream: Stream, buff: array<byte>, used: nat) returns (code: Code, n: nat, ghost out: bytes)
    requires used <= buff.Length
    modifies stream, buff
    ensures var a := Reply(old(stream.script), old(stream.availIn), buff.Length - used);
            code == a.code && out == a.out && stream.availIn == old(stream.availIn) - a.taken
    ensures n == |out| <= buff.Length - used && buff[..used + n] == old(buff[..used]) + out
    ensures stream.script == Rest(old(stream.script)) && stream.emitted == old(stream.emitted) + out
    ensures stream.ended <==> old(stream.ended) || code == StreamEnd
  {
    hide Rest;
    var o;
    code, o := stream.Step(buff.Length - used);
    n, out := |o|, o;
    Store(buff, used, o);
    assert buff[..used + n] == buff[..used] + buff[used..used + n];
    assert buff[..used] == old(buff[..used]);
  }

  /** One turn of the loop: it goes on when the call filled all the room there was. */
  method Turn(stream: Stream, buff: array<byte>, used: nat) returns (more: bool, code: Code, n: nat, ghost out: bytes)
    requires buff.Length == used + Room(used)
    modifies stream, buff
    ensures n == |out| <= Room(used) && buff[..used + n] == old(buff[..used]) + out
    ensures stream.emitted == old(stream.emitted) + out && stream.availIn <= old(stream.availIn)
    ensures stream.ended <==> old(stream.ended) || code == StreamEnd
    ensures var a := Reply(old(stream.script), old(stream.availIn), Room(used)); code == a.code && out == a.out
    ensures var r := OverflowRun(old(stream.script), old(stream.availIn), used);
            if more then
              var rest := OverflowRun(stream.script, stream.availIn, buff.Length);
              code == Ok && n == Room(used) && r.ret == rest.ret && r.out == out + rest.out && r.left == rest.left
            else
              r == Run(if code == BufError then Ok else code, out, stream.availIn) && (code == BufError ==> out == [])
    ensures more ==> |stream.script| < |old(stream.script)|
  {
    code, n, out := StepInto(stream, buff, used);
    more := code == Ok && n == buff.Length - used;
  }

  /** The whole run is what was got so far, and then the run r. */
  ghost predicate Remaining(run: Run, got: bytes, r: Run) {
    run.ret == r.ret && run.out == got + r.out && run.left == r.left
  }

  lemma RemainingStep(run: Run, got: bytes, r: Run, out: bytes)
    requires Remaining(run, got, r)
    ensures forall rest: Run :: r.ret == rest.ret && r.out == out + rest.out && r.left == rest.left ==>
                                Remaining(run, got + out, rest)
    ensures r.out == out ==> run == Run(r.ret, got + out, r.left)
  {
    forall rest: Run | r.ret == rest.ret && r.out == out + rest.out && r.left == rest.left
      ensures Remaining(run, got + out, rest)
    {
      ConcatAssoc(got, out, rest.out);
    }
  }

  method CopyFront(data: array<byte>, v: bytes)
    requires |v| <= data.Length
    modifies data
    ensures data[..|v|] == v && data[|v|..] == old(data[|v|..])
  {
    Store(data, 0, v);
  }

  method CopyTwo(data: array<byte>, u: bytes, v: bytes)
    requires |u| + |v| <= data.Length
    modifies data
    ensures data[..|u| + |v|] == u + v && data[|u| + |v|..] == old(data[|u| + |v|..])
  {
    Store(data, 0, u);
    Store(data, |u|, v);
  }

  /** What is left of the run, and whether the buffer is still untouched. */
  ghost predicate Going(stream: Stream, run: Run, got: bytes, used: nat, script: seq<Answer>, availIn: nat)
    reads stream
  {
    && Remaining(run, got, OverflowRun(stream.script, stream.availIn, used))
    && |got| == used
    && if used == 0 then stream.script == script && stream.availIn == availIn
       else Reply(script, availIn, SIZE).code == Ok && Reply(script, availIn, SIZE).out != []
  }

  /** The loop of psync_deflate_finish_flush_add_buffer. It frees the buffer when its first call makes no progress. */
  method FillOverflow(stream: Stream) returns (ret: Code, buff: array?<byte>, used: nat, ghost run: Run)
    modifies stream
    ensures run == OverflowRun(old(stream.script), old(stream.availIn), 0) && ret == run.ret
    ensures stream.emitted == old(stream.emitted) + run.out && stream.availIn == run.left <= old(stream.availIn)
    ensures stream.ended <==> old(stream.ended) || ret == StreamEnd
    ensures buff != null ==> fresh(buff) && used <= buff.Length
    ensures ret == Ok ==> run.out == if buff == null then [] else buff[..used]
    ensures ret == Ok ==>
              (buff != null && used == 0 <==> EmptyOverflow(old(stream.script), old(stream.availIn)))
  {
    hide OverflowRun, Reply, Remaining;
    ret, used, run := Ok, 0, OverflowRun(stream.script, stream.availIn, 0);
    ghost var got: bytes, script, availIn := [], stream.script, stream.availIn;
    RemainingStart(run);
    NothingFollows(stream.emitted, got);
    var b := new byte[SIZE];
    var more := true;
    while more
      invariant fresh(b) && used <= b.Length && b[..used] == got
      invariant stream.emitted == old(stream.emitted) + got && stream.availIn <= old(stream.availIn)
      invariant more ==> b.Length == used + Room(used) && stream.ended == old(stream.ended)
      invariant more ==> Going(stream, run, got, used, script, availIn)
      invariant !more ==> run == Run(if ret == BufError then Ok else ret, got, stream.availIn)
      invariant !more ==> stream.ended == (old(stream.ended) || ret == StreamEnd)
      invariant !more && used == 0 && ret == Ok ==> EmptyOverflow(script, availIn)
      invariant !more && (used != 0 || ret != Ok) ==> !EmptyOverflow(script, availIn)
      decreases more, |stream.script|
    {
      ghost var r := OverflowRun(stream.script, stream.availIn, used);
      ghost var out;
      var n;
      more, ret, n, out := Turn(stream, b, used);
      used := used + n;
      ConcatAssoc(old(stream.emitted), got, out);
      RemainingStep(run, got, r, out);
      got := got + out;
      if more {
        b := Grow(b, used);
      }
    }
    buff := if ret == BufError && used == 0 then null else b;
    ret := if ret == BufError then Ok else ret;
  }

  lemma RemainingStart(run: Run)
    ensures Remaining(run, [], run)
  {
    assert [] + run.out == run.out;
  }

  class Deflater {
    const stream: Stream
    const buffer: array<byte>
    const deflating: bool
    var flushbuff: array?<byte>
    var flushbufflen: nat
    var flushbuffoff: nat
    var start: nat
    var end: nat
    var moreData: bool
    var streamEnd: bool
    /** The bytes handed out by reads, all bytes that were not discarded, and how many were discarded. */
    ghost var delivered: bytes
    ghost var kept: bytes
    ghost var dropped: nat

    ghost function Ring(): bytes
      requires buffer.Length == SIZE && start < SIZE && start <= end <= start + SIZE
      reads this`start, this`end, buffer
    {
      RingOf(buffer[..], start, end)
    }

    ghost function Overflow(): bytes
      requires flushbuff != null ==> flushbuffoff <= flushbufflen <= flushbuff.Length
      reads this`flushbuff, this`flushbuffoff, this`flushbufflen, flushbuff
    {
      if flushbuff == null then [] else flushbuff[..][flushbuffoff..flushbufflen]
    }

    /** The offsets are in range, and an empty ring starts over at 0. */
    ghost predicate Shape()
      reads this, flushbuff
    {
      && buffer.Length == SIZE && start < SIZE && start <= end <= start + SIZE
      && (start == end ==> start == 0)
      && (flushbuff != null ==> flushbuff != buffer && flushbuffoff <= flushbufflen <= flushbuff.Length)
      && (flushbuff != null ==> !moreData && (flushbuffoff < flushbufflen || flushbufflen == 0))
    }

    /** Nothing was lost as long as nothing was dropped, and the end is reported by the stream alone. */
    ghost predicate Counted()
      reads this`kept, this`dropped, this`streamEnd, stream
    {
      && |kept| + dropped == |stream.emitted|
      && (dropped == 0 ==> kept == stream.emitted)
      && (streamEnd ==> stream.ended)
    }

    /** First in, first out: what was kept is what was delivered, then the ring, then the overflow. */
    ghost predicate Valid()
      reads this, buffer, flushbuff, stream
    {
      && Shape() && Counted()
      && kept == delivered + Ring() + Overflow()
    }

    /** The end of the stream was noticed, and an overflow buffer holds something: so it is if zlib keeps its contract. */
    ghost predicate Regular()
      reads this`streamEnd, this`flushbuff, this`flushbufflen, stream`ended
    {
      (streamEnd <==> stream.ended) && (flushbuff != null ==> flushbufflen > 0)
    }

    /** pdeflate_init, for a stream that could be initialised. */
    constructor (stream: Stream, deflating: bool)
      requires stream.emitted == []
      ensures Valid() && fresh(buffer) && this.stream == stream && this.deflating == deflating
      ensures delivered == [] && dropped == 0 && flushbuff == null && start == end == 0 && !streamEnd && !moreData
      ensures !stream.ended ==> Regular()
    {
      this.stream, this.deflating := stream, deflating;
      buffer := new byte[SIZE];
      flushbuff, flushbufflen, flushbuffoff, start, end := null, 0, 0, 0, 0;
      moreData, streamEnd := false, false;
      delivered, kept, dropped := [], [], 0;
    }

    /** psync_deflate_set_out_buff: where the next bytes go, and how many fit without wrapping. */
    method SetOutBuff() returns (full: bool, at: nat, avail: nat)
      requires Shape()
      ensures full <==> end - start == SIZE
      ensures !full ==> Window(start, end, at, avail)
    {
      if end - start == SIZE {
        return true, 0, 0;
      }
      at := end % SIZE;
      avail := if at < start then start - at else SIZE - at;
      full := false;
    }

    method Put(at: nat, o: bytes)
      requires buffer.Length == SIZE && at + |o| <= SIZE
      modifies buffer
      ensures buffer[..] == Patched(old(buffer[..]), at, o)
    {
      Store(buffer, at, o);
    }

    /** psync_deflate_call_compressor into the ring. */
    method CompressIntoRing(at: nat, avail: nat) returns (ret: Code, ghost out: bytes)
      requires Valid() && flushbuff == null && Window(start, end, at, avail)
      modifies this`end, this`moreData, this`kept, buffer, stream
      ensures Valid()
      ensures end == old(end) + |out| && Ring() == old(Ring()) + out && kept == old(kept) + out
      ensures stream.emitted == old(stream.emitted) + out && |out| <= avail && (moreData <==> |out| == avail)
      ensures var a := Reply(old(stream.script), old(stream.availIn), avail);
              ret == a.code && out == a.out && stream.availIn == old(stream.availIn) - a.taken
      ensures stream.script == Rest(old(stream.script)) && stream.availIn <= old(stream.availIn)
      ensures stream.ended <==> old(stream.ended) || ret == StreamEnd
    {
      hide RingOf, Patched;
      var o;
      ret, o := stream.Step(avail);
      out := o;
      RingAppend(buffer[..], start, end, at, avail, o);
      Put(at, o);
      end := end + |o|;
      moreData := |o| == avail;
      kept := kept + o;
      assert Ring() == old(Ring()) + o;
      assert kept == delivered + Ring() + Overflow();
    }

    /** psync_deflate_finish_flush_add_buffer: whatever the ring had no room for goes into a buffer that doubles. */
    method FinishFlush() returns (ret: Code, ghost run: Run)
      requires Valid() && flushbuff == null
      modifies this`flushbuff, this`flushbufflen, this`flushbuffoff, this`moreData, this`kept, this`dropped, stream
      ensures Valid() && !moreData && stream.availIn <= old(stream.availIn)
      ensures run == OverflowRun(old(stream.script), old(stream.availIn), 0) && ret == run.ret
      ensures stream.emitted == old(stream.emitted) + run.out && stream.availIn == run.left
      ensures stream.ended <==> old(stream.ended) || ret == StreamEnd
      ensures ret == Ok ==> Overflow() == run.out && kept == old(kept) + run.out && dropped == old(dropped)
      ensures ret != Ok ==> flushbuff == null && kept == old(kept) && dropped == old(dropped) + |run.out|
      ensures ret == Ok ==>
                (flushbuff != null && flushbufflen == 0 <==> EmptyOverflow(old(stream.script), old(stream.availIn)))
    {
      hide RingOf, OverflowRun, EmptyOverflow, Ring;
      NothingFollows(delivered + Ring(), []);
      var buff, used;
      moreData := false;
      flushbuffoff := 0;
      ret, buff, used, run := FillOverflow(stream);
      if ret == Ok {
        flushbuff, flushbufflen := buff, used;
        kept := kept + run.out;
      } else {
        dropped := dropped + |run.out|;
      }
    }

    /** The one or two calls of pdeflate_write that fill the ring; the second one is for a ring that wraps. */
    method FillRing(at: nat, avail: nat) returns (ret: Code, ghost out: bytes)
      requires Valid() && flushbuff == null && Window(start, end, at, avail)
      modifies this`end, this`moreData, this`kept, buffer, stream
      ensures Valid() && end == old(end) + |out|
      ensures kept == old(kept) + out && stream.emitted == old(stream.emitted) + out
      ensures RingRun(old(stream.script), old(stream.availIn), start, old(end))
           == Fill(ret, out, stream.script, stream.availIn, moreData)
      ensures stream.availIn <= old(stream.availIn)
      ensures stream.ended <==> old(stream.ended) || ret == StreamEnd
    {
      hide RingOf, Ring, Overflow, Rest, Reply;
      ret, out := CompressIntoRing(at, avail);
      if ret == Ok && moreData {
        var full, at2, avail2 := SetOutBuff();
        if !full {
          ghost var more;
          ret, more := CompressIntoRing(at2, avail2);
          ConcatAssoc(old(kept), out, more);
          ConcatAssoc(old(stream.emitted), out, more);
          out := out + more;
          if ret == BufError {
            ret := Ok;
          }
        }
      }
    }

    /** The end of a flush: the overflow loop's result if it ran, and what it leaves in the overflow buffer. */
    ghost predicate Rested(f: Fill, flush: Flush, code: Code, run: Run)
      requires flushbuff != null ==> flushbuffoff <= flushbufflen <= flushbuff.Length
      reads this`moreData, this`flushbuff, this`flushbuffoff, this`flushbufflen, flushbuff, stream`script
    {
      && run == (if Overflows(f, deflating, flush) then OverflowRun(f.script, f.left, 0) else Run(Ok, [], f.left))
      && code == (if Overflows(f, deflating, flush) then run.ret else f.ret)
      && (moreData <==> f.more && !Overflows(f, deflating, flush))
      && Overflow() == (if run.ret == Ok then run.out else [])
      && (flushbuff != null ==> Overflows(f, deflating, flush) && run.ret == Ok)
      && (!Overflows(f, deflating, flush) ==> stream.script == f.script)
      && (flushbuff != null && flushbufflen == 0 <==>
          Overflows(f, deflating, flush) && run.ret == Ok && EmptyOverflow(f.script, f.left))
    }

    /** What a write that is accepted returns, what becomes of what it makes the compressor emit, and where that is. */
    ghost predicate Accepted(f: Fill, flush: Flush, len: nat, r: int, code: Code, written: bytes, run: Run)
      requires flushbuff != null ==> flushbuffoff <= flushbufflen <= flushbuff.Length
      reads this`moreData, this`flushbuff, this`flushbuffoff, this`flushbufflen, flushbuff, stream`script
    {
      && written == f.out && Rested(f, flush, code, run)
      && r == if code in {StreamError, DataError} then ERROR else len - run.left
    }

    method SetInput(len: nat)
      requires Valid()
      modifies stream`availIn
      ensures Valid() && stream.availIn == len
    {
      hide RingOf;
      stream.availIn := len;
    }

    method NoteEnd(ret: Code)
      requires Valid() && (ret == StreamEnd ==> stream.ended)
      modifies this`streamEnd
      ensures Valid() && (streamEnd <==> old(streamEnd) || ret == StreamEnd)
    {
      hide RingOf;
      if ret == StreamEnd {
        streamEnd := true;
      }
    }

    /** What a flush does about a ring it has used up; f is what went before. */
    method FlushRest(flush: Flush, ret: Code, ghost f: Fill) returns (code: Code, ghost run: Run)
      requires Valid() && flushbuff == null && f == Fill(ret, f.out, stream.script, stream.availIn, moreData)
      modifies this`flushbuff, this`flushbufflen, this`flushbuffoff, this`moreData, this`kept, this`dropped, stream
      ensures Valid() && stream.availIn == run.left && stream.emitted == old(stream.emitted) + run.out
      ensures stream.availIn <= old(stream.availIn)
      ensures kept == old(kept) + if run.ret == Ok then run.out else []
      ensures dropped == old(dropped) + if run.ret == Ok then 0 else |run.out|
      ensures Rested(f, flush, code, run)
      ensures stream.ended <==> old(stream.ended) || (Overflows(f, deflating, flush) && code == StreamEnd)
    {
      hide RingOf, Ring, Counted, OverflowRun, EmptyOverflow, Reply;
      code, run := ret, Run(Ok, [], stream.availIn);
      NothingFollows(kept, []);
      NothingFollows(stream.emitted, []);
      if ret == Ok && deflating && flush != NoFlush && moreData {
        code, run := FinishFlush();
      }
    }

    /** pdeflate_write once there is room. */
    method Compress(len: nat, flush: Flush, at: nat, avail: nat)
      returns (r: int, ghost code: Code, ghost written: bytes, ghost run: Run)
      requires Valid() && flushbuff == null && Window(start, end, at, avail)
      modifies this`flushbuff, this`flushbufflen, this`flushbuffoff, this`end, this`moreData, this`streamEnd,
               this`kept, this`dropped, buffer, stream
      ensures Valid() && end == old(end) + |written|
      ensures stream.emitted == old(stream.emitted) + written + run.out
      ensures kept == old(kept) + written + if run.ret == Ok then run.out else []
      ensures dropped == old(dropped) + if run.ret == Ok then 0 else |run.out|
      ensures Accepted(RingRun(old(stream.script), len, start, old(end)), flush, len, r, code, written, run)
      ensures stream.availIn <= len && r == if code in {StreamError, DataError} then ERROR else len - stream.availIn
      ensures streamEnd <==> old(streamEnd) || code == StreamEnd
      ensures stream.ended <==> old(stream.ended) || code == StreamEnd
    {
      hide RingOf, Ring, Counted, Overflow, OverflowRun, RingRun, EmptyOverflow, Reply, Rested;
      SetInput(len);
      var ret;
      ret, written := FillRing(at, avail);
      ghost var f := Fill(ret, written, stream.script, stream.availIn, moreData);
      ret, run := FlushRest(flush, ret, f);
      RestedFacts(f, flush, ret, run);
      NoteEnd(ret);
      code := ret;
      r := if ret == StreamError || ret == DataError then ERROR else len - stream.availIn;
    }

    lemma RestedFacts(f: Fill, flush: Flush, code: Code, run: Run)
      requires flushbuff != null ==> flushbuffoff <= flushbufflen <= flushbuff.Length
      requires Rested(f, flush, code, run)
      ensures !Overflows(f, deflating, flush) ==> code == f.ret
    {
      hide OverflowRun, EmptyOverflow, Overflow;
    }

    /** pdeflate_write does nothing when there is nothing to do, or no room. */
    predicate Refuses(len: nat, flush: Flush)
      reads this
    {
      (len == 0 && flush == NoFlush) || flushbuff != null || end - start == SIZE
    }

    /**
     * pdeflate_write: `written` are the bytes that went into the ring and `run` is the overflow loop, if it ran.
     * They are all the compressor emitted, and all of them are kept, unless the loop ended with another code than
     * Z_OK or Z_BUF_ERROR: then exactly what it had emitted is gone. Finishing a stream with T bytes left loses what
     * the ring has no room for, nothing if T is at most that; flushing and plain writing lose nothing.
     */
    method Write(len: nat, flush: Flush) returns (r: int, ghost code: Code, ghost written: bytes, ghost run: Run)
      requires Valid()
      modifies this`flushbuff, this`flushbufflen, this`flushbuffoff, this`end, this`moreData, this`streamEnd,
               this`kept, this`dropped, buffer, stream
      ensures Valid() && end == old(end) + |written|
      ensures stream.emitted == old(stream.emitted) + written + run.out
      ensures kept == old(kept) + written + if run.ret == Ok then run.out else []
      ensures dropped == old(dropped) + if run.ret == Ok then 0 else |run.out|
      ensures r == if len == 0 && flush == NoFlush then ERROR
                   else if old(flushbuff != null || end - start == SIZE) then FULL
                   else if code in {StreamError, DataError} then ERROR else len - stream.availIn
      ensures old(Refuses(len, flush)) ==>
                && r == (if len == 0 && flush == NoFlush then ERROR else FULL)
                && written + run.out == [] && stream.script == old(stream.script) && flushbuff == old(flushbuff)
      ensures !old(Refuses(len, flush)) ==>
                Accepted(RingRun(old(stream.script), len, start, old(end)), flush, len, r, code, written, run)
      ensures !old(Refuses(len, flush)) && deflating && flush == FlushEnd ==>
                FinishedWrite(old(stream.script), len, start, old(end), dropped - old(dropped), stream.ended, moreData)
      ensures old(Regular()) ==>
                old(Refuses(len, flush)) || KeepsContract(old(stream.script), len, start, old(end), deflating, flush) ==>
                Regular()
      ensures FlushesOnly(old(stream.script)) || flush == NoFlush || !deflating ==> dropped == old(dropped)
      ensures streamEnd <==> old(streamEnd) || code == StreamEnd
      ensures stream.ended <==> old(stream.ended) || code == StreamEnd
    {
      hide RingOf, Ring, Overflow, OverflowRun, RingRun, Accepted, Counted, FlushesOnly, KeepsContract, FinishedWrite,
           Window;
      code, written, run := Ok, [], Run(Ok, [], 0);
      NothingFollows(kept, []);
      NothingFollows(stream.emitted, []);
      if len == 0 && flush == NoFlush {
        return ERROR, code, written, run;
      }
      if flushbuff != null {
        return FULL, code, written, run;
      }
      var full, at, avail := SetOutBuff();
      if full {
        return FULL, code, written, run;
      }
      r, code, written, run := WriteOn(len, flush, at, avail);
    }

    /** A write that is not refused. */
    method WriteOn(len: nat, flush: Flush, at: nat, avail: nat)
      returns (r: int, ghost code: Code, ghost written: bytes, ghost run: Run)
      requires Valid() && flushbuff == null && Window(start, end, at, avail)
      modifies this`flushbuff, this`flushbufflen, this`flushbuffoff, this`end, this`moreData, this`streamEnd,
               this`kept, this`dropped, buffer, stream
      ensures Valid() && end == old(end) + |written|
      ensures stream.emitted == old(stream.emitted) + written + run.out
      ensures kept == old(kept) + written + if run.ret == Ok then run.out else []
      ensures dropped == old(dropped) + if run.ret == Ok then 0 else |run.out|
      ensures r == if code in {StreamError, DataError} then ERROR else len - stream.availIn
      ensures Accepted(RingRun(old(stream.script), len, start, old(end)), flush, len, r, code, written, run)
      ensures deflating && flush == FlushEnd ==>
                FinishedWrite(old(stream.script), len, start, old(end), dropped - old(dropped), stream.ended, moreData)
      ensures KeepsContract(old(stream.script), len, start, old(end), deflating, flush) ==>
                flushbuff != null ==> flushbufflen > 0
      ensures FlushesOnly(old(stream.script)) || flush == NoFlush || !deflating ==> dropped == old(dropped)
      ensures streamEnd <==> old(streamEnd) || code == StreamEnd
      ensures stream.ended <==> old(stream.ended) || code == StreamEnd
    {
      hide RingOf, Ring, Overflow, OverflowRun, RingRun, Accepted, Counted, FlushesOnly, KeepsContract, FinishedWrite;
      ghost var script, from := stream.script, end;
      r, code, written, run := Compress(len, flush, at, avail);
      if FlushesOnly(script) || flush == NoFlush || !deflating {
        NothingLost(script, len, from, flush, r, code, written, run);
      }
      if KeepsContract(script, len, start, from, deflating, flush) {
        KeepsRegular(script, len, from, flush, r, code, written, run);
      }
      if deflating && flush == FlushEnd {
        FinishesAsSaid(script, len, from, r, code, written, run, stream.ended);
      }
    }

    lemma FinishesAsSaid(script: seq<Answer>, len: nat, from: nat, r: int, code: Code, written: bytes, run: Run,
                         ended: bool)
      requires start < SIZE && start <= from < start + SIZE && deflating
      requires flushbuff != null ==> flushbuffoff <= flushbufflen <= flushbuff.Length
      requires Accepted(RingRun(script, len, start, from), FlushEnd, len, r, code, written, run)
      requires code == StreamEnd ==> ended
      ensures FinishedWrite(script, len, start, from, if run.ret == Ok then 0 else |run.out|, ended, moreData)
    {
      hide RingRun, OverflowRun, Accepted, Finishes, RingRooms, Lost;
      LostIs(script, len, from, FlushEnd, r, code, written, run);
      forall t | Finishes(t, script, len, RingRooms(start, from), 0)
        ensures var space := SIZE - (from - start);
                var lost := if run.ret == Ok then 0 else |run.out|;
                && lost == (if |t| <= space then 0 else |t| - space) && (lost == 0 <==> |t| <= space)
                && ended && (moreData ==> |t| == Space(start, from) || |t| == space)
      {
        FinishingLosesTheExcess(t, script, len, start, from);
        EndIs(t, script, len, from, r, code, written, run);
      }
    }

    lemma EndIs(t: bytes, script: seq<Answer>, len: nat, from: nat, r: int, code: Code, written: bytes, run: Run)
      requires start < SIZE && start <= from < start + SIZE && deflating
      requires flushbuff != null ==> flushbuffoff <= flushbufflen <= flushbuff.Length
      requires Accepted(RingRun(script, len, start, from), FlushEnd, len, r, code, written, run)
      requires Finishes(t, script, len, RingRooms(start, from), 0)
      ensures code == StreamEnd && (moreData ==> |t| == Space(start, from) || |t| == SIZE - (from - start))
    {
      hide RingRun, OverflowRun, Overflow, EmptyOverflow, Finishes, RingRooms;
      FinishingInRing(t, script, len, start, from);
      EndFillsRoom(t, script, len, start, from);
      var f := RingRun(script, len, start, from);
      if f.ret == Ok {
        FinishingIsNotKept(t[SIZE - (from - start)..], f.script, f.left, 0);
      }
    }

    lemma KeepsRegular(script: seq<Answer>, len: nat, from: nat, flush: Flush, r: int, code: Code, written: bytes, run: Run)
      requires start < SIZE && start <= from < start + SIZE
      requires flushbuff != null ==> flushbuffoff <= flushbufflen <= flushbuff.Length
      requires Accepted(RingRun(script, len, start, from), flush, len, r, code, written, run)
      requires KeepsContract(script, len, start, from, deflating, flush)
      ensures flushbuff != null ==> flushbufflen > 0
    {
      hide RingRun, OverflowRun, Overflow, EmptyOverflow, KeepsContract;
      var f := RingRun(script, len, start, from);
      if Overflows(f, deflating, flush) {
        OverflowIsNotEmpty(script, len, start, from, deflating, flush);
      }
    }

    lemma LostIs(script: seq<Answer>, len: nat, from: nat, flush: Flush, r: int, code: Code, written: bytes, run: Run)
      requires start < SIZE && start <= from < start + SIZE
      requires flushbuff != null ==> flushbuffoff <= flushbufflen <= flushbuff.Length
      requires Accepted(RingRun(script, len, start, from), flush, len, r, code, written, run)
      ensures Lost(script, len, start, from, deflating, flush) == if run.ret == Ok then 0 else |run.out|
    {
      hide RingRun, OverflowRun, Overflow, EmptyOverflow;
    }

    lemma NothingLost(script: seq<Answer>, len: nat, from: nat, flush: Flush, r: int, code: Code, written: bytes, run: Run)
      requires start < SIZE && start <= from < start + SIZE
      requires flushbuff != null ==> flushbuffoff <= flushbufflen <= flushbuff.Length
      requires Accepted(RingRun(script, len, start, from), flush, len, r, code, written, run)
      requires FlushesOnly(script) || flush == NoFlush || !deflating
      ensures run.ret != Ok ==> |run.out| == 0
    {
      hide RingRun, OverflowRun, Accepted, Lost, FlushesOnly;
      LostIs(script, len, from, flush, r, code, written, run);
      FlushingLosesNothing(script, len, start, from, deflating, flush);
    }

    /** The read of a ring that holds something. */
    method ReadRing(data: array<byte>, len: nat) returns (r: nat)
      requires Valid() && start < end && len <= data.Length && data != buffer && data != flushbuff
      modifies this`start, this`end, this`delivered, data
      ensures Valid() && r == (if len <= old(end - start) then len else old(end - start))
      ensures delivered == old(delivered) + data[..r] && data[r..] == old(data[r..])
      ensures end - start == old(end - start) - r && (start < end ==> start == (old(start) + r) % SIZE)
    {
      hide RingOf, TakenFrom, Ring, Overflow, Counted;
      r := if len > end - start then end - start else len;
      CopyOut(data, r);
      PassRing(r);
    }

    /** The bookkeeping of that read: an empty ring starts over, and offsets behind the end of the array come down. */
    method PassRing(r: nat)
      requires Valid() && start < end && r <= end - start
      modifies this`start, this`end, this`delivered
      ensures Valid() && delivered == old(delivered) + TakenFrom(buffer[..], old(start), r)
      ensures end - start == old(end - start) - r && (start < end ==> start == (old(start) + r) % SIZE)
    {
      hide RingOf, TakenFrom, Overflow, Counted;
      ghost var b, ring, over, taken := buffer[..], Ring(), Overflow(), TakenFrom(buffer[..], start, r);
      if start + r == end {
        RingTakeAll(b, start, end);
        start, end := 0, 0;
        RingIsEmpty(b);
      } else {
        RingTake(b, start, end, r);
        start := start + r;
        if start >= SIZE {
          start := start - SIZE;
          end := end - SIZE;
        }
      }
      FifoStep(delivered, taken, Ring(), over, ring);
      delivered := delivered + taken;
    }

    /** The one or two memcpy calls out of the ring. */
    method CopyOut(data: array<byte>, r: nat)
      requires buffer.Length == SIZE && start < SIZE && start <= end <= start + SIZE
      requires r <= end - start && r <= data.Length && data != buffer
      modifies data
      ensures data[..r] == TakenFrom(buffer[..], start, r) && data[r..] == old(data[r..])
    {
      if start + r <= SIZE {
        CopyFront(data, buffer[..][start..start + r]);
      } else {
        CopyTwo(data, buffer[..][start..], buffer[..][..r - (SIZE - start)]);
      }
    }

    /** The read of an overflow buffer, which goes away with its last byte. */
    method ReadOverflow(data: array<byte>, len: nat) returns (r: nat)
      requires Valid() && start == end && flushbuff != null
      requires len <= data.Length && data != buffer && data != flushbuff
      modifies this`flushbuff, this`flushbuffoff, this`delivered, data
      ensures Valid() && r == (if len <= old(flushbufflen - flushbuffoff) then len else old(flushbufflen - flushbuffoff))
      ensures delivered == old(delivered) + data[..r] && data[r..] == old(data[r..])
      ensures r < len ==> flushbuff == null
    {
      hide RingOf, Counted, Ring, Overflow;
      r := if len > flushbufflen - flushbuffoff then flushbufflen - flushbuffoff else len;
      CopyFront(data, flushbuff[..][flushbuffoff..flushbuffoff + r]);
      PassOverflow(r);
    }

    /** The bookkeeping of that read. */
    method PassOverflow(r: nat)
      requires Valid() && start == end && flushbuff != null && flushbuffoff + r <= flushbufflen
      modifies this`flushbuff, this`flushbuffoff, this`delivered
      ensures Valid() && delivered == old(delivered) + old(flushbuff[..][flushbuffoff..flushbuffoff + r])
      ensures old(flushbuffoff) + r == flushbufflen <==> flushbuff == null
    {
      hide RingOf, Counted;
      RingIsEmpty(buffer[..]);
      ghost var ring, b, was := Ring(), flushbuff[..], delivered;
      hide Ring;
      var i, k := flushbuffoff, flushbuffoff + r;
      OverflowStep(was, ring, b, i, k, flushbufflen);
      assert kept == was + b[i..k] + ring + b[k..flushbufflen];
      delivered := delivered + flushbuff[..][i..k];
      flushbuffoff := k;
      if flushbuffoff == flushbufflen {
        flushbuff := null;
        assert Overflow() == [];
      } else {
        assert Overflow() == b[k..flushbufflen];
      }
    }

    /** psync_deflate_call_compressor into the reader's own buffer, without input. */
    method StepOut(data: array<byte>, len: nat) returns (ret: Code, n: nat, ghost out: bytes)
      requires len <= data.Length
      modifies this`moreData, data, stream
      ensures var a := Reply(old(stream.script), 0, len); ret == a.code && out == a.out
      ensures n == |out| <= len && data[..n] == out && data[n..] == old(data[n..]) && (moreData <==> n == len)
      ensures stream.script == Rest(old(stream.script)) && stream.emitted == old(stream.emitted) + out
      ensures stream.ended <==> old(stream.ended) || ret == StreamEnd
    {
      hide Reply, Rest;
      stream.availIn := 0;
      var o;
      ret, o := stream.Step(len);
      n, out := |o|, o;
      CopyFront(data, o);
      moreData := n == len;
    }

    /** The read that calls the compressor on the reader's own buffer. */
    method ReadDirect(data: array<byte>, len: nat) returns (r: int, ghost out: bytes)
      requires Valid() && start == end && flushbuff == null
      requires 0 < len <= data.Length && data != buffer
      modifies this`moreData, this`streamEnd, this`delivered, this`kept, this`dropped, data, stream
      ensures Valid()
      ensures stream.emitted == old(stream.emitted) + out && |out| <= len && stream.script == Rest(old(stream.script))
      ensures var a := Reply(old(stream.script), 0, len);
              && out == a.out && (moreData <==> |out| == len)
              && r == (if a.code in {StreamError, DataError} then ERROR else if out == [] then NODATA else |out|)
              && (stream.ended <==> old(stream.ended) || a.code == StreamEnd)
              && (streamEnd <==> old(streamEnd) || a.code == StreamEnd)
      ensures r == ERROR ==> delivered == old(delivered) && dropped == old(dropped) + |out|
      ensures r != ERROR ==> dropped == old(dropped) && delivered == old(delivered) + out && kept == delivered
      ensures r > 0 ==> data[..r] == out && data[r..] == old(data[r..])
    {
      hide RingOf, Ring, Overflow, Reply, Rest;
      DrainedIsDelivered();
      var ret, n;
      ret, n, out := StepOut(data, len);
      if ret == StreamError || ret == DataError {
        dropped := dropped + n;
        return ERROR, out;
      }
      PassDirect(out);
      if ret == BufError {
        NoOutput(old(stream.script), len);
        return NODATA, out;
      }
      if ret == StreamEnd {
        streamEnd := true;
      }
      r := if n == 0 then NODATA else n;
    }

    lemma NoOutput(script: seq<Answer>, len: nat)
      ensures Reply(script, 0, len).code == BufError ==> Reply(script, 0, len).out == []
    {
    }

    /** Bytes that go past the ring are kept and delivered at once. */
    ghost method PassDirect(o: bytes)
      requires Shape() && start == end && flushbuff == null && kept == delivered && kept == delivered + Ring() + Overflow()
      requires (streamEnd ==> stream.ended) && |kept| + |o| + dropped == |stream.emitted|
      requires dropped == 0 ==> stream.emitted == kept + o
      modifies this`kept, this`delivered
      ensures Valid() && kept == delivered == old(delivered) + o
    {
      hide RingOf;
      RingIsEmpty(buffer[..]);
      kept, delivered := kept + o, delivered + o;
    }

    /**
     * pdeflate_read: the ring first, then the overflow, then the compressor itself. What it returns extends what was
     * delivered. If zlib keeps its contract, a result of 0 says that the stream has ended and everything kept was
     * delivered, unless more data is still expected. Bytes are lost exactly with an error of the compressor that emits
     * some.
     */
    method Read(data: array<byte>, len: nat) returns (r: int)
      requires Valid() && len <= data.Length && data != buffer && data != flushbuff
      requires len == 0 ==> start < end || flushbuff != null || !moreData
      modifies this`start, this`end, this`flushbuff, this`flushbuffoff, this`moreData, this`streamEnd,
               this`delivered, this`kept, this`dropped, data, stream
      ensures Valid()
      ensures r >= 0 ==> r <= len && delivered == old(delivered) + data[..r] && data[r..] == old(data[r..])
      ensures r < 0 ==> r in {NODATA, ERROR} && delivered == old(delivered)
      ensures old(start < end || flushbuff != null || !moreData) ==> dropped == old(dropped)
      ensures old(start < end) ==>
                && r == (if len <= old(end - start) then len else old(end - start))
                && end - start == old(end - start) - r && (start < end ==> start == (old(start) + r) % SIZE)
      ensures old(start < end || flushbuff == null) ==> flushbuff == old(flushbuff)
      ensures old(start == end && flushbuff != null) ==>
                r == if len <= old(flushbufflen - flushbuffoff) then len else old(flushbufflen - flushbuffoff)
      ensures old(start < end || flushbuff != null) ==> r >= 0
      ensures old(start < end || flushbuff != null || !moreData) ==>
                && stream.emitted == old(stream.emitted) && stream.ended == old(stream.ended)
                && stream.script == old(stream.script) && moreData == old(moreData)
      ensures old(start == end && flushbuff == null && moreData) ==>
                var a := Reply(old(stream.script), 0, len);
                && stream.emitted == old(stream.emitted) + a.out
                && r == (if a.code in {StreamError, DataError} then ERROR else if a.out == [] then NODATA else |a.out|)
                && dropped == old(dropped) + (if r == ERROR then |a.out| else 0)
                && stream.script == Rest(old(stream.script)) && (moreData <==> |a.out| == len)
                && (stream.ended <==> old(stream.ended) || a.code == StreamEnd)
      ensures old(start == end) ==> start == end
      ensures old(start == end && flushbuff == null && !moreData) ==> r == if streamEnd then EOF else NODATA
      ensures len > 0 ==>
                (r == EOF <==> old(start == end && if flushbuff != null then flushbufflen == 0 else !moreData && streamEnd))
      ensures r == EOF && len > 0 ==> delivered == kept && (dropped == 0 ==> delivered == stream.emitted)
      ensures r == EOF && len > 0 && old(flushbuff) == null ==> stream.ended
      ensures old(Regular()) ==> Regular()
      ensures old(Regular()) && len > 0 ==> (r == EOF <==> old(stream.ended && kept == delivered && !moreData))
    {
      hide RingOf, Overflow;
      if start < end {
        r := ReadRing(data, len);
      } else if flushbuff != null {
        r := ReadOverflow(data, len);
        if flushbuff == null {
          DrainedIsDelivered();
        }
      } else {
        DrainedIsDelivered();
        if moreData {
          ghost var out;
          r, out := ReadDirect(data, len);
          NothingFollows(old(delivered), out);
        } else {
          NothingFollows(delivered, data[..0]);
          r := if streamEnd then EOF else NODATA;
        }
      }
    }

    /** pdeflate_pending counts the whole overflow buffer, so it is an upper bound until that is empty. */
    method Pending() returns (n: nat)
      requires Valid()
      ensures |kept| - |delivered| <= n
      ensures |kept| - |delivered| == n <==> flushbuff == null || flushbuffoff == 0
    {
      n := end - start + if flushbuff != null then flushbufflen else 0;
    }

    lemma DrainedIsDelivered()
      requires Valid() && start == end && flushbuff == null
      ensures kept == delivered
    {
    }
  }

  /** A call of the user: data to write, or room for a read. */
  datatype Call = Put(len: nat, flush: Flush) | Take(room: nat)

  /** Any sequence of calls: what the reads return, one after the other, is what the compressor emitted, in order. */
  method Session(stream: Stream, deflating: bool, calls: seq<Call>) returns (d: Deflater, got: bytes)
    requires stream.emitted == []
    modifies stream
    ensures d.Valid() && d.stream == stream && d.start < SIZE && d.end - d.start <= SIZE
    ensures got <= d.kept && |d.kept| + d.dropped == |stream.emitted|
    ensures d.dropped == 0 ==> got <= stream.emitted
  {
    d := new Deflater(stream, deflating);
    got := [];
    for i := 0 to |calls|
      invariant fresh(d) && fresh(d.buffer) && d.stream == stream && d.Valid() && d.delivered == got
    {
      match calls[i] {
        case Put(len, flush) =>
          ghost var code, written, run;
          var r;
          r, code, written, run := d.Write(len, flush);
        case Take(room) =>
          if room > 0 {
            var data := new byte[room];
            var r := d.Read(data, room);
            if r > 0 {
              got := got + data[..r];
            }
          }
      }
    }
    KeptStarts(got, d.Ring(), d.Overflow());
  }

  lemma KeptStarts(a: bytes, b: bytes, c: bytes)
    ensures a <= a + b + c
  {
  }
}
