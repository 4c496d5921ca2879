/** Bounded reading of a body that arrives in chunks: apps/push-relay/src/body.ts, `readBytes`. */
module Body {
  import opened Base64
  import opened Basics
  import opened Wrappers

  /** What one read of a stream gives: bytes, something else, the end, a failure, or an abort that comes first. */
  datatype Chunk = Data(bytes: Bytes) | NotBytes | End | Broken | Aborted

  /** A stream is what each of its reads gives. It need not end. */
  type Stream = nat -> Chunk

  datatype Outcome = Complete(bytes: Bytes) | TooLarge | Timeout | Invalid | Failed

  /** The outcome once `done` reads have been made, with `got` already stored. */
  function Reading(stream: Stream, maxBytes: nat, done: nat, got: Bytes): Outcome
    requires done <= maxBytes + 1
    decreases maxBytes + 1 - done
  {
    match stream(done)
    case End => Complete(got)
    case Broken => Failed
    case Aborted => Timeout
    case NotBytes => Invalid
    case Data(bytes) =>
      if done + 1 > maxBytes + 1 then Invalid
      else if |bytes| > maxBytes - |got| then TooLarge
      else Reading(stream, maxBytes, done + 1, got + bytes)
  }

  // ---------------------------------------------------------------- where reading stops, and why

  /** The first `n` reads deliver bytes. */
  predicate Delivers(stream: Stream, n: nat) {
    forall i :: 0 <= i < n ==> stream(i).Data?
  }

  /** What they deliver together. */
  function Delivered(stream: Stream, n: nat): Bytes
    requires Delivers(stream, n)
  {
    if n == 0 then [] else Delivered(stream, n - 1) + stream(n - 1).bytes
  }

  /** The reads before the one numbered `n` deliver bytes, no more than are wanted, and there may be that many reads. */
  predicate Reaches(stream: Stream, maxBytes: nat, n: nat) {
    n <= maxBytes + 1 && Delivers(stream, n) && |Delivered(stream, n)| <= maxBytes
  }

  /** The one numbered `n` is the last: it gives no bytes, too many, or comes when no more chunks are taken. */
  predicate Stops(stream: Stream, maxBytes: nat, n: nat) {
    && Reaches(stream, maxBytes, n)
    && (stream(n).Data? ==>
        n == maxBytes + 1 || |Delivered(stream, n) + stream(n).bytes| > maxBytes)
  }

  lemma DeliveredMore(stream: Stream, n: nat)
    requires Delivers(stream, n) && stream(n).Data?
    ensures Delivers(stream, n + 1) && Delivered(stream, n + 1) == Delivered(stream, n) + stream(n).bytes
  {
  }

  lemma {:induction false} DeliveredGrows(stream: Stream, m: nat, n: nat)
    requires m <= n && Delivers(stream, n)
    ensures |Delivered(stream, m)| <= |Delivered(stream, n)|
  {
    if m < n {
      DeliveredGrows(stream, m, n - 1);
    }
  }

  /** There is only one last read. */
  lemma StopsOnce(stream: Stream, maxBytes: nat, m: nat, n: nat)
    requires Stops(stream, maxBytes, m) && Stops(stream, maxBytes, n)
    ensures m == n
  {
    if m < n {
      DeliveredMore(stream, m);
      DeliveredGrows(stream, m + 1, n);
    } else if n < m {
      DeliveredMore(stream, n);
      DeliveredGrows(stream, n + 1, m);
    }
  }

  /** Reading stops, and the last read decides. */
  lemma {:induction false} ReadingStops(stream: Stream, maxBytes: nat, done: nat) returns (n: nat)
    requires Reaches(stream, maxBytes, done)
    ensures Stops(stream, maxBytes, n)
    ensures var outcome := Reading(stream, maxBytes, done, Delivered(stream, done));
            match stream(n)
            case End => outcome == Complete(Delivered(stream, n))
            case Broken => outcome == Failed
            case Aborted => outcome == Timeout
            case NotBytes => outcome == Invalid
            case Data(_) => outcome == if n == maxBytes + 1 then Invalid else TooLarge
    decreases maxBytes + 1 - done
  {
    n := done;
    if stream(done).Data? && done <= maxBytes {
      DeliveredMore(stream, done);
      if |Delivered(stream, done + 1)| <= maxBytes {
        n := ReadingStops(stream, maxBytes, done + 1);
      }
    }
  }

  /** What comes of any stream, by the first read that is not one more chunk that fits. */
  ghost predicate IsOutcome(stream: Stream, maxBytes: nat, outcome: Outcome) {
    match outcome
    case Complete(bytes) =>
      exists n: nat :: Reaches(stream, maxBytes, n) && stream(n) == End && bytes == Delivered(stream, n)
    case Failed => exists n: nat :: Reaches(stream, maxBytes, n) && stream(n) == Broken
    case Timeout => exists n: nat :: Reaches(stream, maxBytes, n) && stream(n) == Aborted
    case Invalid =>
      || (exists n: nat :: Reaches(stream, maxBytes, n) && stream(n) == NotBytes)
      || (Reaches(stream, maxBytes, maxBytes + 1) && stream(maxBytes + 1).Data?)
    case TooLarge =>
      exists n: nat :: Reaches(stream, maxBytes, n) && n <= maxBytes && stream(n).Data?
                       && |Delivered(stream, n) + stream(n).bytes| > maxBytes
  }

  /**
   * Reading any stream, endless ones included, gives this outcome if and only if some read within the cap calls for it,
   * all reads before that one having delivered bytes, no more than are wanted: the end of the stream completes it with
   * exactly those bytes, and a failure, an abort or something else than bytes never does.
   */
  lemma OutcomeExactly(stream: Stream, maxBytes: nat, outcome: Outcome)
    ensures Reading(stream, maxBytes, 0, []) == outcome <==> IsOutcome(stream, maxBytes, outcome)
  {
    assert Delivered(stream, 0) == [];
    var n := ReadingStops(stream, maxBytes, 0);
    if IsOutcome(stream, maxBytes, outcome) {
      var m := LastRead(stream, maxBytes, outcome);
      StopsOnce(stream, maxBytes, m, n);
    }
    hide Reading;
  }

  lemma LastRead(stream: Stream, maxBytes: nat, outcome: Outcome) returns (n: nat)
    requires IsOutcome(stream, maxBytes, outcome)
    ensures Stops(stream, maxBytes, n)
    ensures match outcome
            case Complete(bytes) => stream(n) == End && bytes == Delivered(stream, n)
            case Failed => stream(n) == Broken
            case Timeout => stream(n) == Aborted
            case Invalid => stream(n) == NotBytes || (stream(n).Data? && n == maxBytes + 1)
            case TooLarge => stream(n).Data? && n <= maxBytes
  {
    match outcome
    case Complete(bytes) =>
      n :| Reaches(stream, maxBytes, n) && stream(n) == End && bytes == Delivered(stream, n);
    case Failed => n :| Reaches(stream, maxBytes, n) && stream(n) == Broken;
    case Timeout => n :| Reaches(stream, maxBytes, n) && stream(n) == Aborted;
    case Invalid =>
      if Reaches(stream, maxBytes, maxBytes + 1) && stream(maxBytes + 1).Data? {
        n := maxBytes + 1;
      } else {
        n :| Reaches(stream, maxBytes, n) && stream(n) == NotBytes;
      }
    case TooLarge =>
      n :| Reaches(stream, maxBytes, n) && n <= maxBytes && stream(n).Data?
           && |Delivered(stream, n) + stream(n).bytes| > maxBytes;
  }

  /** The loop. `aborted` tells whether the signal was aborted before the first read, and `made` counts the reads. */
  method ReadStream(stream: Stream, maxBytes: nat, aborted: bool) returns (outcome: Outcome, made: nat)
    ensures aborted ==> outcome == Timeout && made == 0
    ensures !aborted ==> outcome == Reading(stream, maxBytes, 0, [])
    ensures made <= maxBytes + 2
    ensures outcome.Complete? ==> |outcome.bytes| <= maxBytes
  {
    made := 0;
    var bytes := new Byte[maxBytes](_ => 0);
    var size := 0;
    var chunks := 0;
    if aborted {
      return Timeout, made;
    }
    while true
      invariant made == chunks <= maxBytes + 1
      invariant 0 <= size <= maxBytes == bytes.Length
      invariant Reading(stream, maxBytes, 0, []) == Reading(stream, maxBytes, made, bytes[..size])
      decreases maxBytes + 1 - chunks
    {
      var chunk := stream(made);
      made := made + 1;
      if chunk.Aborted? {
        return Timeout, made;
      }
      if chunk.Broken? {
        return Failed, made;
      }
      if chunk.End? {
        return Complete(bytes[..size]), made;
      }
      chunks := chunks + 1;
      if chunk.NotBytes? || chunks > maxBytes + 1 {
        return Invalid, made;
      }
      if |chunk.bytes| > maxBytes - size {
        return TooLarge, made;
      }
      ghost var got := bytes[..size];
      forall i | 0 <= i < |chunk.bytes| {
        bytes[size + i] := chunk.bytes[i];
      }
      size := size + |chunk.bytes|;
      assert bytes[..size] == got + chunk.bytes;
    }
  }

  /** Without a body there is nothing to read. */
  method ReadBytes(body: Option<Stream>, maxBytes: nat, aborted: bool) returns (outcome: Outcome, made: nat)
    ensures body.None? ==> outcome == Complete([]) && made == 0
    ensures body.Some? && aborted ==> outcome == Timeout && made == 0
    ensures body.Some? && !aborted ==> IsOutcome(body.value, maxBytes, outcome)
    ensures body.Some? && !aborted ==> outcome == Reading(body.value, maxBytes, 0, [])
    ensures made <= maxBytes + 2
    ensures outcome.Complete? ==> |outcome.bytes| <= maxBytes
  {
    if body.None? {
      return Complete([]), 0;
    }
    outcome, made := ReadStream(body.value, maxBytes, aborted);
    OutcomeExactly(body.value, maxBytes, outcome);
  }

  // ---------------------------------------------------------------- streams that deliver chunks and end

  function StreamOf(chunks: seq<Bytes>): Stream {
    (i: nat) => if i < |chunks| then Data(chunks[i]) else End
  }

  function Content(chunks: seq<Bytes>): Bytes {
    if chunks == [] then [] else Content(chunks[..|chunks| - 1]) + chunks[|chunks| - 1]
  }

  lemma {:induction false} ContentGrows(chunks: seq<Bytes>, n: nat)
    requires n <= |chunks|
    ensures |Content(chunks[..n])| <= |Content(chunks)|
    ensures (forall i :: 0 <= i < |chunks| ==> chunks[i] != []) ==>
              |chunks| - n <= |Content(chunks)| - |Content(chunks[..n])|
  {
    if n == |chunks| {
      assert chunks[..n] == chunks;
    } else {
      var rest := chunks[..|chunks| - 1];
      assert rest[..n] == chunks[..n];
      ContentGrows(rest, n);
    }
  }

  lemma ContentStep(chunks: seq<Bytes>, n: nat)
    requires n < |chunks|
    ensures Content(chunks[..n + 1]) == Content(chunks[..n]) + chunks[n]
  {
    assert chunks[..n + 1][..n] == chunks[..n];
  }

  /** Whether the first chunks up to some read within the cap are already too much. */
  ghost predicate Overflows(chunks: seq<Bytes>, maxBytes: nat) {
    exists n :: 0 <= n <= |chunks| && n <= maxBytes + 1 && |Content(chunks[..n])| > maxBytes
  }

  /**
   * Reading any list of chunks, empty ones included: the content, unless it is too much or comes in too many chunks.
   */
  lemma {:induction false} ReadFrom(chunks: seq<Bytes>, maxBytes: nat, n: nat)
    requires n <= |chunks| && n <= maxBytes + 1
    requires forall m :: 0 <= m <= n ==> |Content(chunks[..m])| <= maxBytes
    ensures Reading(StreamOf(chunks), maxBytes, n, Content(chunks[..n]))
         == if Overflows(chunks, maxBytes) then TooLarge
            else if |chunks| > maxBytes + 1 then Invalid
            else Complete(Content(chunks))
    decreases |chunks| - n
  {
    if n == |chunks| {
      assert chunks[..n] == chunks;
    } else if n == maxBytes + 1 {
    } else {
      ContentStep(chunks, n);
      if |chunks[n]| > maxBytes - |Content(chunks[..n])| {
        assert |Content(chunks[..n + 1])| > maxBytes;
      } else {
        ReadFrom(chunks, maxBytes, n + 1);
      }
    }
  }

  lemma ReadChunks(chunks: seq<Bytes>, maxBytes: nat)
    ensures Reading(StreamOf(chunks), maxBytes, 0, [])
         == if Overflows(chunks, maxBytes) then TooLarge
            else if |chunks| > maxBytes + 1 then Invalid
            else Complete(Content(chunks))
  {
    assert chunks[..0] == [];
    ReadFrom(chunks, maxBytes, 0);
  }

  /** With no empty chunk the outcome depends on the content alone: all of it, or `TooLarge`, and never `Invalid`. */
  lemma ChunkingDoesNotMatter(chunks: seq<Bytes>, maxBytes: nat)
    requires forall i :: 0 <= i < |chunks| ==> chunks[i] != []
    ensures Reading(StreamOf(chunks), maxBytes, 0, [])
         == if |Content(chunks)| <= maxBytes then Complete(Content(chunks)) else TooLarge
  {
    ReadChunks(chunks, maxBytes);
    forall n | 0 <= n <= |chunks| ensures |Content(chunks[..n])| <= |Content(chunks)| {
      ContentGrows(chunks, n);
    }
    if |Content(chunks)| > maxBytes {
      var n := if |chunks| <= maxBytes + 1 then |chunks| else maxBytes + 1;
      assert chunks[..n][..0] == [] && chunks[..|chunks|] == chunks;
      ContentGrows(chunks[..n], 0);
      assert |Content(chunks[..n])| > maxBytes;
    } else {
      assert chunks[..0] == [];
      ContentGrows(chunks, 0);
    }
  }

  /** Empty chunks do matter: two chunkings of no bytes at all, one of them refused for its number of chunks. */
  lemma EmptyChunksMatter()
    ensures Content([]) == Content([[], []]) == []
    ensures Reading(StreamOf([]), 0, 0, []) == Complete([])
    ensures Reading(StreamOf([[], []]), 0, 0, []) == Invalid
  {
    var two: seq<Bytes> := [[], []];
    assert two[..1] == [[]] && two[..1][..0] == [];
    assert Content(two[..1]) == [];
    ReadChunks([], 0);
    ReadChunks(two, 0);
    assert two[..0] == [];
  }
}
