/** A ring of 4096 bytes, as a sequence and two offsets. */
module DeflateRing {
  import opened Bytes
  import opened Sequences

  const SIZE: nat := 4096

  /** The bytes between two offsets of the ring, oldest first. */
  ghost function RingOf(b: bytes, start: nat, end: nat): (r: bytes)
    requires |b| == SIZE && start < SIZE && start <= end <= start + SIZE
    ensures |r| == end - start
  {
    if end <= SIZE then b[start..end] else b[start..] + b[..end - SIZE]
  }

  /** b with the bytes o written at offset `at`. */
  ghost function Patched(b: bytes, at: nat, o: bytes): (r: bytes)
    requires at + |o| <= |b|
    ensures |r| == |b|
  {
    b[..at] + o + b[at + |o|..]
  }

  /** Where the compressor may write: up to the end of the array, or up to the oldest byte. */
  predicate Window(start: nat, end: nat, at: nat, avail: nat) {
    && avail > 0 && end + avail <= start + SIZE
    && if end < SIZE then at == end && at + avail == SIZE else at == end - SIZE && at + avail == start
  }

  /** How many bytes fit before the ring wraps, or is full. */
  function Space(start: nat, end: nat): (n: nat)
    requires start < SIZE && start <= end < start + SIZE
    ensures 0 < n <= start + SIZE - end
  {
    if end < SIZE then SIZE - end else start - (end - SIZE)
  }

  lemma PatchedBefore(b: bytes, at: nat, o: bytes, lo: nat)
    requires lo <= at && at + |o| <= |b|
    ensures Patched(b, at, o)[lo..at + |o|] == b[lo..at] + o
  {
  }

  lemma PatchedAfter(b: bytes, at: nat, o: bytes, lo: nat)
    requires at + |o| <= lo <= |b|
    ensures Patched(b, at, o)[lo..] == b[lo..]
  {
  }

  lemma Wrapped(b: bytes, start: nat, end: nat)
    requires |b| == SIZE && start < SIZE && SIZE <= end <= start + SIZE
    ensures RingOf(b, start, end) == b[start..] + b[..end - SIZE]
  {
  }

  /** Bytes written into the window extend the ring at its end. */
  lemma RingAppend(b: bytes, start: nat, end: nat, at: nat, avail: nat, o: bytes)
    requires |b| == SIZE && start < SIZE && start <= end
    requires Window(start, end, at, avail) && |o| <= avail
    ensures RingOf(Patched(b, at, o), start, end + |o|) == RingOf(b, start, end) + o
  {
    hide Patched;
    if end < SIZE {
      PatchedBefore(b, at, o, start);
    } else {
      hide RingOf;
      Wrapped(b, start, end);
      Wrapped(Patched(b, at, o), start, end + |o|);
      PatchedAfter(b, at, o, start);
      PatchedBefore(b, at, o, 0);
      ConcatAssoc(b[start..], b[..at], o);
    }
  }

  /** The bytes a read of n takes out of the ring: one piece, or two where it wraps. */
  ghost function TakenFrom(b: bytes, start: nat, n: nat): (r: bytes)
    requires |b| == SIZE && start < SIZE && n <= SIZE
  {
    if start + n <= SIZE then b[start..start + n] else b[start..] + b[..n - (SIZE - start)]
  }

  /** A read that leaves bytes in the ring takes its oldest n bytes, whether or not the read or the ring wraps. */
  lemma RingTake(b: bytes, start: nat, end: nat, n: nat)
    requires |b| == SIZE && start < SIZE && start <= end <= start + SIZE && n < end - start
    ensures start + n < SIZE ==> RingOf(b, start, end) == TakenFrom(b, start, n) + RingOf(b, start + n, end)
    ensures start + n >= SIZE ==>
              end >= SIZE && RingOf(b, start, end) == TakenFrom(b, start, n) + RingOf(b, start + n - SIZE, end - SIZE)
  {
    hide RingOf, TakenFrom;
    if start + n < SIZE {
      TakeUnwrapped(b, start, end, n);
    } else {
      TakeWrapped(b, start, end, n);
    }
  }

  lemma Split(b: bytes, i: nat, k: nat, j: nat)
    requires i <= k <= j <= |b|
    ensures b[i..j] == b[i..k] + b[k..j]
  {
  }

  lemma Unwrapped(b: bytes, start: nat, end: nat)
    requires |b| == SIZE && start <= end <= SIZE && start < SIZE
    ensures RingOf(b, start, end) == b[start..end]
    ensures TakenFrom(b, start, end - start) == b[start..end]
  {
  }

  lemma TakeUnwrapped(b: bytes, start: nat, end: nat, n: nat)
    requires |b| == SIZE && start < SIZE && start <= end <= start + SIZE && n < end - start && start + n < SIZE
    ensures RingOf(b, start, end) == TakenFrom(b, start, n) + RingOf(b, start + n, end)
  {
    hide RingOf, TakenFrom;
    var i := start + n;
    Unwrapped(b, start, i);
    if end < SIZE {
      Unwrapped(b, start, end);
      Unwrapped(b, i, end);
      Split(b, start, i, end);
    } else {
      Wrapped(b, start, end);
      Wrapped(b, i, end);
      Split(b, start, i, SIZE);
      ConcatAssoc(b[start..i], b[i..SIZE], b[..end - SIZE]);
      assert b[start..SIZE] == b[start..] && b[i..SIZE] == b[i..];
    }
  }

  lemma TakenWrapped(b: bytes, start: nat, n: nat)
    requires |b| == SIZE && start < SIZE && n <= SIZE && start + n >= SIZE
    ensures TakenFrom(b, start, n) == b[start..] + b[..start + n - SIZE]
  {
    if start + n == SIZE {
      NothingFollows(b[start..], b[..0]);
    }
  }

  lemma TakeWrapped(b: bytes, start: nat, end: nat, n: nat)
    requires |b| == SIZE && start < SIZE && start <= end <= start + SIZE && n < end - start && start + n >= SIZE
    ensures end >= SIZE && RingOf(b, start, end) == TakenFrom(b, start, n) + RingOf(b, start + n - SIZE, end - SIZE)
  {
    hide RingOf, TakenFrom;
    var i := start + n - SIZE;
    Wrapped(b, start, end);
    TakenWrapped(b, start, n);
    Unwrapped(b, i, end - SIZE);
    Split(b, 0, i, end - SIZE);
    assert b[0..i] == b[..i] && b[0..end - SIZE] == b[..end - SIZE];
    ConcatAssoc(b[start..], b[..i], b[i..end - SIZE]);
  }

  lemma RingTakeAll(b: bytes, start: nat, end: nat)
    requires |b| == SIZE && start < SIZE && start <= end <= start + SIZE
    ensures RingOf(b, start, end) == TakenFrom(b, start, end - start)
  {
  }

  lemma RingIsEmpty(b: bytes)
    requires |b| == SIZE
    ensures RingOf(b, 0, 0) == []
  {
  }

  /**
   * The assertion in the wrapping branch of pdeflate_read compares the second piece with the whole wrapped part of the
   * ring: it is true of exactly the reads that empty the ring.
   */
  lemma WrapAssertionMeansDrained(start: nat, end: nat, n: nat)
    requires start < SIZE && start <= end <= start + SIZE && n <= end - start && start + n > SIZE
    ensures n - (SIZE - start) == end % SIZE <==> n == end - start
  {
    assert end % SIZE == end - SIZE;
  }
}
