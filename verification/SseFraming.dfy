/**
 Cutting a server-sent-event byte stream into frames while it arrives in arbitrary chunks.
 A frame ends at the first blank line, written "\n\n" or "\r\n\r\n"; frames and the unfinished
 tail are limited to 512 KiB.
 */
module SseFraming {
  import opened Wrappers
  import opened ByteStrings

  const LF: Byte := 10
  const CR: Byte := 13
  const LF_LF: Bytes := [LF, LF]
  const CRLF_CRLF: Bytes := [CR, LF, CR, LF]
  const MAX_SSE_FRAME_BYTES: nat := 512 * 1024

  // ---- Finding a boundary -----------------------------------------------------------------

  /** The first index from `from` on at which needle starts. */
  function Position(haystack: Bytes, needle: Bytes, from: nat): (r: Option<nat>)
    requires needle != []
    ensures r.Some? ==> from <= r.value && At(haystack, r.value, needle)
    ensures r.Some? ==> forall i :: from <= i < r.value ==> !At(haystack, i, needle)
    ensures r.None? ==> forall i :: from <= i ==> !At(haystack, i, needle)
    decreases |haystack| - from
  {
    if from + |needle| > |haystack| then None
    else if At(haystack, from, needle) then Some(from)
    else Position(haystack, needle, from + 1)
  }

  /** How long the blank line that starts at index i is; 0 when none starts there. */
  function DelimiterAt(buffer: Bytes, i: int): nat {
    if At(buffer, i, LF_LF) then 2 else if At(buffer, i, CRLF_CRLF) then 4 else 0
  }

  datatype Boundary = Boundary(end: nat, delimiter: nat)

  /** The boundary is the first place where a blank line starts, and it fits in the buffer. */
  function FrameBoundary(buffer: Bytes): (r: Option<Boundary>)
    ensures r.Some? ==> DelimiterAt(buffer, r.value.end) == r.value.delimiter
    ensures r.Some? ==> r.value.delimiter in {2, 4} && r.value.end + r.value.delimiter <= |buffer|
    ensures r.Some? ==> forall i :: 0 <= i < r.value.end ==> DelimiterAt(buffer, i) == 0
    ensures r.None? ==> forall i :: DelimiterAt(buffer, i) == 0
  {
    var lf := Position(buffer, LF_LF, 0);
    var crlf := Position(buffer, CRLF_CRLF, 0);
    match (lf, crlf)
    case (Some(left), Some(right)) => Some(if left <= right then Boundary(left, 2) else Boundary(right, 4))
    case (Some(left), None) => Some(Boundary(left, 2))
    case (None, Some(right)) =>
      assert !At(buffer, right, LF_LF);
      Some(Boundary(right, 4))
    case (None, None) => None
  }

  lemma BoundaryIsFirst(buffer: Bytes, b: Boundary)
    requires b.delimiter > 0 && DelimiterAt(buffer, b.end) == b.delimiter
    requires forall i :: 0 <= i < b.end ==> DelimiterAt(buffer, i) == 0
    ensures FrameBoundary(buffer) == Some(b)
  {
    var found := FrameBoundary(buffer);
    assert found.Some?;
    assert DelimiterAt(buffer, found.value.end) > 0;
  }

  /** A boundary is where the text of an empty line starts, and it is the first such place. */
  lemma BoundaryIsBlankLine(buffer: Bytes)
    ensures match FrameBoundary(buffer)
            case None => forall i :: !At(buffer, i, Ascii("\n\n")) && !At(buffer, i, Ascii("\r\n\r\n"))
            case Some(b) =>
              && (At(buffer, b.end, Ascii("\n\n")) ==> b.delimiter == 2)
              && (!At(buffer, b.end, Ascii("\n\n")) ==>
                    At(buffer, b.end, Ascii("\r\n\r\n")) && b.delimiter == 4)
              && forall i :: 0 <= i < b.end ==>
                   !At(buffer, i, Ascii("\n\n")) && !At(buffer, i, Ascii("\r\n\r\n"))
  {
    hide FrameBoundary, At;
    assert LF_LF == Ascii("\n\n") && CRLF_CRLF == Ascii("\r\n\r\n");
    var found := FrameBoundary(buffer);
    if found.None? {
      forall i
        ensures !At(buffer, i, LF_LF) && !At(buffer, i, CRLF_CRLF)
      {
        assert DelimiterAt(buffer, i) == 0;
      }
    } else {
      assert DelimiterAt(buffer, found.value.end) == found.value.delimiter;
      forall i | 0 <= i < found.value.end
        ensures !At(buffer, i, LF_LF) && !At(buffer, i, CRLF_CRLF)
      {
        assert DelimiterAt(buffer, i) == 0;
      }
    }
  }

  /** Two bytes of lookahead decide whether a blank line starts at i, except at the very end. */
  lemma DelimiterExtends(buffer: Bytes, more: Bytes, i: nat)
    ensures DelimiterAt(buffer, i) > 0 ==> DelimiterAt(buffer + more, i) == DelimiterAt(buffer, i)
    ensures (DelimiterAt(buffer + more, i) > 0 && i + DelimiterAt(buffer + more, i) <= |buffer|)
              ==> DelimiterAt(buffer, i) == DelimiterAt(buffer + more, i)
  {
    var long := buffer + more;
    if i + 2 <= |buffer| {
      assert long[i..i + 2] == buffer[i..i + 2];
    }
    if i + 4 <= |buffer| {
      assert long[i..i + 4] == buffer[i..i + 4];
    }
    if At(buffer, i, CRLF_CRLF) {
      assert buffer[i] == CR;
    }
    if At(long, i, CRLF_CRLF) {
      assert long[i..i + 4][0] == CR;
      assert long[i] == CR;
    }
  }

  lemma DelimitersDoNotOverlap(buffer: Bytes, i: nat)
    requires At(buffer, i, CRLF_CRLF)
    ensures DelimiterAt(buffer, i + 1) == 0
  {
    assert buffer[i..i + 4][1] == LF && buffer[i..i + 4][2] == CR;
    assert buffer[i + 1] == LF && buffer[i + 2] == CR;
  }

  /** A boundary found in a prefix stays the first boundary of every extension. */
  lemma BoundaryIsStable(buffer: Bytes, more: Bytes)
    requires FrameBoundary(buffer).Some?
    ensures FrameBoundary(buffer + more) == FrameBoundary(buffer)
  {
    var b := FrameBoundary(buffer).value;
    var long := buffer + more;
    DelimiterExtends(buffer, more, b.end);
    forall i | 0 <= i < b.end
      ensures DelimiterAt(long, i) == 0
    {
      DelimiterExtends(buffer, more, i);
      if At(long, i, CRLF_CRLF) {
        DelimitersDoNotOverlap(long, i);
      }
    }
    BoundaryIsFirst(long, b);
  }

  // ---- The frames of a whole stream -------------------------------------------------------

  /** A frame together with the length of the blank line that closed it. */
  datatype Frame = Frame(bytes: Bytes, delimiter: nat)

  datatype Framed = Framed(frames: seq<Frame>, rest: Bytes)

  function Split(stream: Bytes): (r: Framed)
    ensures FrameBoundary(r.rest) == None
    ensures forall i :: 0 <= i < |r.frames| ==> r.frames[i].delimiter in {2, 4}
    decreases |stream|
  {
    match FrameBoundary(stream)
    case None => Framed([], stream)
    case Some(b) =>
      var tail := Split(stream[b.end + b.delimiter..]);
      Framed([Frame(stream[..b.end], b.delimiter)] + tail.frames, tail.rest)
  }

  lemma SplitUnfolds(stream: Bytes, b: Boundary)
    requires FrameBoundary(stream) == Some(b)
    ensures var tail := Split(stream[b.end + b.delimiter..]);
            Split(stream) == Framed([Frame(stream[..b.end], b.delimiter)] + tail.frames, tail.rest)
  {
  }

  lemma SplitStops(stream: Bytes)
    requires FrameBoundary(stream) == None
    ensures Split(stream) == Framed([], stream)
  {
  }

  /** Splitting is incremental: only the unfinished tail has to be kept. */
  lemma {:induction false} SplitIsIncremental(s: Bytes, t: Bytes)
    ensures Split(s + t).frames == Split(s).frames + Split(Split(s).rest + t).frames
    ensures Split(s + t).rest == Split(Split(s).rest + t).rest
    decreases |s|
  {
    hide FrameBoundary, DelimiterAt, Split;
    var boundary := FrameBoundary(s);
    if boundary.Some? {
      var cut := boundary.value.end + boundary.value.delimiter;
      BoundaryIsStable(s, t);
      SplitUnfolds(s, boundary.value);
      SplitUnfolds(s + t, boundary.value);
      assert (s + t)[..boundary.value.end] == s[..boundary.value.end];
      assert (s + t)[cut..] == s[cut..] + t;
      SplitIsIncremental(s[cut..], t);
    } else {
      SplitStops(s);
    }
  }

  lemma SplitPrefix(s: Bytes, t: Bytes)
    ensures Split(s).frames <= Split(s + t).frames
  {
    SplitIsIncremental(s, t);
  }

  // ---- The incremental framer -------------------------------------------------------------

  function Concat(chunks: seq<Bytes>): Bytes {
    if chunks == [] then [] else Concat(chunks[..|chunks| - 1]) + chunks[|chunks| - 1]
  }

  /** How many leading frames fit in the limit. */
  function Fitting(frames: seq<Frame>): (n: nat)
    ensures n <= |frames|
    ensures forall i :: 0 <= i < n ==> |frames[i].bytes| <= MAX_SSE_FRAME_BYTES
    ensures n < |frames| ==> |frames[n].bytes| > MAX_SSE_FRAME_BYTES
  {
    if frames == [] || |frames[0].bytes| > MAX_SSE_FRAME_BYTES then 0
    else
      var n := Fitting(frames[1..]);
      assert forall i :: 0 < i < n + 1 ==> frames[i] == frames[1..][i - 1];
      n + 1
  }

  /** What a reader has seen: the frames handed on, the buffered tail, and whether it gave up. */
  datatype Reading = Reading(delivered: seq<Frame>, buffer: Bytes, oversize: bool)

  function Feed(reading: Reading, chunk: Bytes): Reading {
    if reading.oversize then reading
    else
      var found := Split(reading.buffer + chunk);
      var n := Fitting(found.frames);
      Reading(
        reading.delivered + found.frames[..n],
        found.rest,
        n < |found.frames| || |found.rest| > MAX_SSE_FRAME_BYTES)
  }

  function FeedAll(chunks: seq<Bytes>): Reading {
    if chunks == [] then Reading([], [], false)
    else Feed(FeedAll(chunks[..|chunks| - 1]), chunks[|chunks| - 1])
  }

  /** A reader that has not given up has delivered exactly the frames of what it was fed. */
  lemma {:induction false} FeedingAgrees(chunks: seq<Bytes>)
    requires !FeedAll(chunks).oversize
    ensures FeedAll(chunks).delivered == Split(Concat(chunks)).frames
    ensures FeedAll(chunks).buffer == Split(Concat(chunks)).rest
    ensures |FeedAll(chunks).buffer| <= MAX_SSE_FRAME_BYTES
    ensures forall i :: 0 <= i < |FeedAll(chunks).delivered|
              ==> |FeedAll(chunks).delivered[i].bytes| <= MAX_SSE_FRAME_BYTES
  {
    if chunks == [] {
      assert Split([]) == Framed([], []);
    } else {
      var earlier := chunks[..|chunks| - 1];
      FeedingAgrees(earlier);
      SplitIsIncremental(Concat(earlier), chunks[|chunks| - 1]);
      var found := Split(FeedAll(earlier).buffer + chunks[|chunks| - 1]);
      assert found.frames[..|found.frames|] == found.frames;
    }
  }

  /** The delimiter never has to wait for more bytes than the limit allows. */
  predicate Roomy(frame: Frame) {
    |frame.bytes| + frame.delimiter - 1 <= MAX_SSE_FRAME_BYTES
  }

  predicate AllRoomy(frames: seq<Frame>, n: nat)
    requires n <= |frames|
  {
    forall i :: 0 <= i < n ==> Roomy(frames[i])
  }

  /** After any prefix u, the buffered tail is short of the next boundary. */
  lemma TailIsShort(u: Bytes, v: Bytes)
    ensures var n := |Split(u).frames|; var whole := Split(u + v);
            n <= |whole.frames| &&
            if n < |whole.frames|
            then |Split(u).rest| <= |whole.frames[n].bytes| + whole.frames[n].delimiter - 1
            else |Split(u).rest| <= |whole.rest|
  {
    SplitIsIncremental(u, v);
    var rest := Split(u).rest;
    var next := FrameBoundary(rest + v);
    if next.Some? {
      var b := next.value;
      assert Split(rest + v).frames[0] == Frame((rest + v)[..b.end], b.delimiter);
      if b.end + b.delimiter <= |rest| {
        DelimiterExtends(rest, v, b.end);
        assert false;
      }
    }
  }

  /** Roomy frames are delivered whole under every chunking. */
  lemma {:induction false} RoomyIsDelivered(chunks: seq<Bytes>, more: Bytes, k: nat)
    requires k <= |Split(Concat(chunks) + more).frames|
    requires AllRoomy(Split(Concat(chunks) + more).frames, k)
    requires FeedAll(chunks).oversize
    requires k == |Split(Concat(chunks) + more).frames| ==> |Split(Concat(chunks) + more).rest| <= MAX_SSE_FRAME_BYTES
    ensures k < |Split(Concat(chunks) + more).frames|
    ensures |FeedAll(chunks).delivered| >= k
  {
    hide FrameBoundary, Split;
    var earlier, chunk := chunks[..|chunks| - 1], chunks[|chunks| - 1];
    var whole := Split(Concat(chunks) + more);
    assert Concat(earlier) + (chunk + more) == Concat(chunks) + more;
    if FeedAll(earlier).oversize {
      RoomyIsDelivered(earlier, chunk + more, k);
    } else {
      FeedingAgrees(earlier);
      SplitIsIncremental(Concat(earlier), chunk);
      SplitIsIncremental(Concat(chunks), more);
      var before := |Split(Concat(earlier)).frames|;
      var found := Split(FeedAll(earlier).buffer + chunk);
      var seen := Split(Concat(chunks));
      assert seen.frames == Split(Concat(earlier)).frames + found.frames;
      assert seen.frames <= whole.frames;
      var n := Fitting(found.frames);
      if n < |found.frames| {
        assert found.frames[n] == whole.frames[before + n];
      } else {
        TailIsShort(Concat(chunks), more);
      }
    }
  }

  lemma LastChunk(chunks: seq<Bytes>)
    requires chunks != []
    ensures var n := |chunks| - 1;
            && Concat(chunks) == Concat(chunks[..n]) + chunks[n]
            && FeedAll(chunks) == Feed(FeedAll(chunks[..n]), chunks[n])
  {
  }

  /** Whatever happens, the frames delivered are the first frames of the stream. */
  lemma {:induction false} DeliveredIsPrefix(chunks: seq<Bytes>)
    ensures FeedAll(chunks).delivered <= Split(Concat(chunks)).frames
    ensures forall i :: 0 <= i < |FeedAll(chunks).delivered|
              ==> |FeedAll(chunks).delivered[i].bytes| <= MAX_SSE_FRAME_BYTES
  {
    if chunks == [] {
    } else {
      hide Split, FrameBoundary, FeedAll, Concat;
      var earlier, chunk := chunks[..|chunks| - 1], chunks[|chunks| - 1];
      DeliveredIsPrefix(earlier);
      LastChunk(chunks);
      SplitIsIncremental(Concat(earlier), chunk);
      if FeedAll(earlier).oversize {
        PrefixExtends(FeedAll(earlier).delivered, Split(Concat(earlier)).frames,
                      Split(Split(Concat(earlier)).rest + chunk).frames);
      } else {
        FeedingAgrees(earlier);
        var found := Split(FeedAll(earlier).buffer + chunk).frames;
        PrefixOfPart(FeedAll(earlier).delivered, found, Fitting(found));
      }
    }
  }

  lemma PrefixExtends<T>(a: seq<T>, b: seq<T>, c: seq<T>)
    requires a <= b
    ensures a <= b + c
  {
  }

  lemma PrefixOfPart<T>(a: seq<T>, b: seq<T>, n: nat)
    requires n <= |b|
    ensures a + b[..n] <= a + b
  {
  }

  /** A frame over the limit is refused under every chunking, after exactly the earlier frames. */
  lemma OversizeIsRefused(chunks: seq<Bytes>, k: nat)
    requires k < |Split(Concat(chunks)).frames|
    requires AllRoomy(Split(Concat(chunks)).frames, k)
    requires |Split(Concat(chunks)).frames[k].bytes| > MAX_SSE_FRAME_BYTES
    ensures FeedAll(chunks).oversize
    ensures FeedAll(chunks).delivered == Split(Concat(chunks)).frames[..k]
  {
    DeliveredIsPrefix(chunks);
    if !FeedAll(chunks).oversize {
      FeedingAgrees(chunks);
    }
    assert Concat(chunks) + [] == Concat(chunks);
    RoomyIsDelivered(chunks, [], k);
  }

  // ---- When the chunking does not matter --------------------------------------------------

  predicate Accepted(chunks: seq<Bytes>) {
    !FeedAll(chunks).oversize
  }

  lemma RoomyIsAccepted(chunks: seq<Bytes>)
    requires AllRoomy(Split(Concat(chunks)).frames, |Split(Concat(chunks)).frames|)
    requires |Split(Concat(chunks)).rest| <= MAX_SSE_FRAME_BYTES
    ensures Accepted(chunks)
    ensures FeedAll(chunks).delivered == Split(Concat(chunks)).frames
  {
    var whole := Split(Concat(chunks));
    assert Concat(chunks) + [] == Concat(chunks);
    if FeedAll(chunks).oversize {
      RoomyIsDelivered(chunks, [], |whole.frames|);
    }
    FeedingAgrees(chunks);
  }

  /** Just before the last byte of a blank line, the frame and the rest of the line are buffered. */
  lemma {:induction false} CutInsideDelimiter(stream: Bytes, k: nat) returns (cut: nat)
    requires k < |Split(stream).frames|
    ensures cut <= |stream|
    ensures var frame := Split(stream).frames[k];
            |Split(stream[..cut]).rest| == |frame.bytes| + frame.delimiter - 1
  {
    hide FrameBoundary, DelimiterAt;
    var b := FrameBoundary(stream).value;
    var skip := b.end + b.delimiter;
    if k == 0 {
      cut := skip - 1;
      var u := stream[..cut];
      assert u + stream[cut..] == stream;
      if FrameBoundary(u).Some? {
        BoundaryIsStable(u, stream[cut..]);
        assert false;
      }
    } else {
      var inner := CutInsideDelimiter(stream[skip..], k - 1);
      cut := skip + inner;
      var u := stream[..cut];
      assert u == stream[..skip] + stream[skip..][..inner];
      assert stream[..skip] + stream[skip..] == stream;
      DelimiterExtends(stream[..skip], stream[skip..], b.end);
      forall i | 0 <= i < b.end
        ensures DelimiterAt(stream[..skip], i) == 0
      {
        DelimiterExtends(stream[..skip], stream[skip..], i);
      }
      BoundaryIsFirst(stream[..skip], b);
      BoundaryIsStable(stream[..skip], stream[skip..][..inner]);
      assert u[skip..] == stream[skip..][..inner];
    }
  }

  /**
   The exact condition for the network's chunking to be irrelevant: every frame leaves room for its
   own blank line and the tail fits. A frame of 512 KiB - 3 bytes always does; one up to 512 KiB may
   be accepted in one chunking and refused in another.
   */
  lemma ChunkingIsIrrelevantIff(stream: Bytes)
    ensures (forall chunks :: Concat(chunks) == stream ==> Accepted(chunks))
       <==> (AllRoomy(Split(stream).frames, |Split(stream).frames|) && |Split(stream).rest| <= MAX_SSE_FRAME_BYTES)
  {
    hide FrameBoundary, Split;
    if AllRoomy(Split(stream).frames, |Split(stream).frames|) && |Split(stream).rest| <= MAX_SSE_FRAME_BYTES {
      forall chunks | Concat(chunks) == stream
        ensures Accepted(chunks)
      {
        RoomyIsAccepted(chunks);
      }
    } else {
      var cut := |stream|;
      if k :| 0 <= k < |Split(stream).frames| && !Roomy(Split(stream).frames[k]) {
        cut := CutInsideDelimiter(stream, k);
      } else {
        assert stream[..cut] == stream;
      }
      var chunks: seq<Bytes> := [stream[..cut], stream[cut..]];
      assert chunks[..1] == [stream[..cut]];
      assert chunks[..1][..0] == [];
      assert Concat(chunks[..1]) == [] + stream[..cut] == stream[..cut];
      assert Concat(chunks) == stream[..cut] + stream[cut..] == stream;
      assert FeedAll(chunks[..1]) == Feed(FeedAll([]), stream[..cut]);
      assert [] + stream[..cut] == stream[..cut];
      assert FeedAll(chunks[..1]).oversize;
      assert !Accepted(chunks);
    }
  }
}
