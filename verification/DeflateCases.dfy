/**
 * Inputs at which the ring-buffered compressor does what its author did not mean. The sizes are those of data that
 * does not compress: a block of n bytes takes 5 more, and the stream 2 at its start and 4 at its end.
 */
module DeflateCases {
  import opened Bytes
  import opened DeflateRing
  import opened Zlib
  import opened Deflate

  function Ones(n: nat): (b: bytes)
    ensures |b| == n
  {
    seq(n, _ => 1)
  }

  /** 4086 bytes finish as 4097, one more than the empty ring has room for. */
  function OneTooMany(): seq<Answer> {
    [Answer(Ok, Ones(SIZE), 4086), Answer(StreamEnd, [1], 0)]
  }

  lemma OneTooManyFinishes()
    ensures Finishes(Ones(SIZE + 1), OneTooMany(), 4086, RingRooms(0, 0), 0)
  {
    var t, script := Ones(SIZE + 1), OneTooMany();
    assert Reply(script, 4086, SIZE) == Answer(Ok, Ones(SIZE), 4086);
    assert t[..SIZE] == Ones(SIZE) && t[SIZE..] == [1] && Rest(script) == [Answer(StreamEnd, [1], 0)];
    assert RingRooms(0, 0) == [SIZE] && [SIZE][1..] == [];
    assert Finishes([1], Rest(script), 0, [], 0);
  }

  /** Finishing a stream on an empty ring loses the byte that does not fit, and no later read brings it back. */
  method LastByteIsLost() returns (d: Deflater)
    ensures d.Valid() && d.dropped == 1 && |d.kept| == SIZE && |d.stream.emitted| == SIZE + 1 && d.stream.ended
  {
    hide OverflowRun, RingOf, Reply, Finishes, Deflater.Ring, Deflater.Overflow;
    var stream := new Stream(OneTooMany());
    d := new Deflater(stream, true);
    OneTooManyFinishes();
    assert !d.Refuses(4086, FlushEnd);
    ghost var code, written, run;
    var r;
    r, code, written, run := d.Write(4086, FlushEnd);
    assert |Ones(SIZE + 1)| == SIZE + 1;
    OneTooManyFills();
  }

  lemma OneTooManyFills()
    ensures RingRun(OneTooMany(), 4086, 0, 0).out == Ones(SIZE)
  {
  }

  /** 4085 bytes finish as 4096, which is all that the ring has room for; deflate then refuses to go on. */
  function JustFits(): seq<Answer> {
    [Answer(StreamEnd, Ones(SIZE), 4085), Answer(StreamError, [], 0)]
  }

  lemma JustFitsFinishes()
    ensures Finishes(Ones(SIZE), JustFits(), 4085, RingRooms(0, 0), 0)
    ensures RingRun(JustFits(), 4085, 0, 0) == Fill(StreamEnd, Ones(SIZE), JustFits()[1..], 0, true)
    ensures Reply(JustFits()[1..], 0, SIZE) == Answer(StreamError, [], 0)
  {
    assert RingRooms(0, 0) == [SIZE];
  }

  /** A ring that a finished stream has filled exactly. */
  method FinishedExactly() returns (d: Deflater)
    ensures fresh(d) && fresh(d.buffer) && fresh(d.stream) && d.Valid() && d.Regular() && d.flushbuff == null
    ensures d.start == 0 && d.end == SIZE && d.moreData && d.stream.ended && d.dropped == 0
    ensures d.stream.script == JustFits()[1..]
  {
    hide RingRun, OverflowRun, RingOf, Reply, Finishes, FlushesOnly, Deflater.Ring, Deflater.Overflow, EmptyOverflow;
    var stream := new Stream(JustFits());
    d := new Deflater(stream, true);
    JustFitsFinishes();
    assert !d.Refuses(4085, FlushEnd);
    ghost var code, written, run;
    var r;
    r, code, written, run := d.Write(4085, FlushEnd);
  }

  /** Everything is delivered, and then the reader gets an error in place of the end of file, which only comes after it. */
  method ErrorBeforeTheEnd() returns (d: Deflater, first: int, second: int, third: int)
    ensures d.Valid() && d.stream.ended && d.dropped == 0 && d.delivered == d.kept == d.stream.emitted
    ensures first == SIZE && second == ERROR && third == EOF
  {
    hide RingOf, RingRun, Reply, Deflater.Ring, Deflater.Overflow;
    d := FinishedExactly();
    JustFitsFinishes();
    var data := new byte[SIZE];
    first := d.Read(data, SIZE);
    second := d.Read(data, SIZE);
    third := d.Read(data, SIZE);
  }

  /**
   * A flush that fills the ring, 4087 bytes of input and the marker, and a next call that says Z_OK without progress:
   * this is not what zlib does.
   */
  function NothingToAdd(): seq<Answer> {
    [Answer(Ok, Ones(SIZE), 4087), Answer(Ok, [], 0)]
  }

  lemma NothingOverflows()
    ensures var f := RingRun(NothingToAdd(), 4087, 0, 0);
            && f.ret == Ok && f.more && f.out == Ones(SIZE) && EmptyOverflow(f.script, f.left)
            && OverflowRun(f.script, f.left, 0) == Run(Ok, [], 0)
    ensures !Progresses(NothingToAdd(), 4087, RingRooms(0, 0), 0)
  {
    var rest := Rest(NothingToAdd());
    assert RingRooms(0, 0) == [SIZE] && [SIZE][1..] == [];
    assert !Progresses(rest, 0, [], 0);
  }

  /** A full ring, and an overflow buffer that was allocated for nothing. */
  method FlushedForNothing() returns (d: Deflater)
    ensures fresh(d) && fresh(d.buffer) && fresh(d.stream) && d.Valid() && d.start == 0 && d.end == SIZE
    ensures d.flushbuff != null && d.flushbufflen == 0 && !d.streamEnd && !d.stream.ended
  {
    hide RingRun, OverflowRun, RingOf, Reply, Finishes, FlushesOnly, Deflater.Ring, Deflater.Counted, EmptyOverflow;
    hide Progresses;
    var stream := new Stream(NothingToAdd());
    d := new Deflater(stream, true);
    NothingOverflows();
    assert !d.Refuses(4087, PartialFlush);
    ghost var code, written, run;
    var r;
    r, code, written, run := d.Write(4087, PartialFlush);
  }

  /** Without zlib's contract a read may return 0, which is the end of file, although the stream has not ended. */
  method ZeroIsNotTheEnd() returns (d: Deflater, first: int, second: int)
    ensures d.Valid() && first == SIZE && second == EOF && !d.stream.ended
  {
    hide RingOf, Reply, Deflater.Ring, Deflater.Counted, Deflater.Overflow;
    d := FlushedForNothing();
    var data := new byte[SIZE];
    first := d.Read(data, SIZE);
    second := d.Read(data, SIZE);
  }

  /** 20000 bytes make a block that fills the ring, with more to come, and then all that a read frees. */
  function TwoFills(): seq<Answer> {
    [Answer(Ok, Ones(SIZE), 20000), Answer(Ok, Ones(100), 0)]
  }

  lemma TwoFillsWrap()
    ensures RingRun(TwoFills(), 20000, 0, 0) == Fill(Ok, Ones(SIZE), TwoFills()[1..], 0, true)
    ensures RingRun(TwoFills()[1..], 1, 100, SIZE) == Fill(Ok, Ones(100), [], 1, true)
  {
  }

  /** A ring that was filled, and then read a little. */
  method FilledThenRead() returns (d: Deflater)
    ensures fresh(d) && fresh(d.buffer) && fresh(d.stream) && d.Valid() && d.flushbuff == null
    ensures d.start == 100 && d.end == SIZE && d.stream.script == TwoFills()[1..]
  {
    hide RingRun, OverflowRun, RingOf, Reply, Finishes, FlushesOnly, Deflater.Ring, Deflater.Counted, EmptyOverflow;
    var stream := new Stream(TwoFills());
    d := new Deflater(stream, true);
    TwoFillsWrap();
    ghost var code, written, run;
    var r, data := 0, new byte[100];
    assert !d.Refuses(20000, NoFlush);
    r, code, written, run := d.Write(20000, NoFlush);
    r := d.Read(data, 100);
  }

  /** A ring at which a read of 4000 bytes, which leaves some behind, fails the assertion of the wrapping branch. */
  method WrappedReadFailsAssertion() returns (d: Deflater, n: nat)
    ensures d.Valid() && d.start + n > SIZE && n < d.end - d.start && n - (SIZE - d.start) != d.end % SIZE
  {
    hide RingRun, OverflowRun, RingOf, Reply, Finishes, FlushesOnly, Deflater.Ring, Deflater.Counted, EmptyOverflow;
    d := FilledThenRead();
    TwoFillsWrap();
    assert !d.Refuses(1, NoFlush);
    ghost var code, written, run;
    var r;
    r, code, written, run := d.Write(1, NoFlush);
    n := 4000;
  }
}
