/** The tagged messages of the PostgreSQL protocol (section 55.7 of its documentation), as bytes. */
module PgFrames {
  import opened Wrappers
  import opened ByteStrings

  const I32_MAX: nat := 0x7FFF_FFFF

  /** Four bytes as a big-endian two's-complement number. */
  function SignedBe(s: Bytes): int
    requires |s| == 4
  {
    var v := BeValue(s);
    if v <= I32_MAX then v else v - 0x1_0000_0000
  }

  /** Four bytes for a 32-bit number, negative ones in two's complement. */
  function WriteSigned(v: int): (r: Bytes)
    requires -0x8000_0000 <= v <= I32_MAX
    ensures |r| == 4
  {
    BeBytes(if v < 0 then v + 0x1_0000_0000 else v, 4)
  }

  lemma SignedRoundTrip(v: int)
    requires -0x8000_0000 <= v <= I32_MAX
    ensures SignedBe(WriteSigned(v)) == v
  {
    hide BeBytes, BeValue;
    Widths();
    BeRoundTrip(if v < 0 then v + 0x1_0000_0000 else v, 4);
  }

  /** A length field for n bytes, saturating where it no longer fits. */
  function LengthField(n: nat): (r: Bytes)
    ensures |r| == 4
  {
    BeBytes(if n <= I32_MAX then n else I32_MAX, 4)
  }

  lemma LengthRoundTrip(n: nat)
    requires n <= I32_MAX
    ensures SignedBe(LengthField(n)) == n
  {
    hide BeBytes, BeValue;
    Widths();
    BeRoundTrip(n, 4);
  }

  /** One message as it was read: its tag, its length field as sent, its body. */
  datatype Frame = Frame(tag: Byte, length: Bytes, body: Bytes)

  /** How many body bytes a length field announces; it counts itself. */
  function Announced(length: Bytes): (n: nat)
    requires |length| == 4
  {
    var v := SignedBe(length);
    if v < 4 then 0 else v - 4
  }

  /** Lengths that do not even cover the field announce nothing. */
  lemma AnnouncedIs(v: int)
    requires -0x8000_0000 <= v <= I32_MAX
    ensures Announced(WriteSigned(v)) == if v <= 4 then 0 else v - 4
  {
    hide WriteSigned, SignedBe;
    SignedRoundTrip(v);
  }

  predicate WellFramed(f: Frame) {
    |f.length| == 4 && |f.body| == Announced(f.length)
  }

  function Raw(f: Frame): Bytes {
    [f.tag] + f.length + f.body
  }

  function RawAll(frames: seq<Frame>): Bytes {
    if frames == [] then [] else Raw(frames[0]) + RawAll(frames[1..])
  }

  lemma {:induction false} RawAllAppends(a: seq<Frame>, b: seq<Frame>)
    ensures RawAll(a + b) == RawAll(a) + RawAll(b)
  {
    if a == [] {
      assert a + b == b;
    } else {
      assert (a + b)[1..] == a[1..] + b;
      RawAllAppends(a[1..], b);
    }
  }

  /** The message at the front of the input, and what follows; None when the input ends inside it. */
  function NextFrame(input: Bytes): (r: Option<(Frame, Bytes)>)
    ensures r.Some? ==> WellFramed(r.value.0) && Raw(r.value.0) + r.value.1 == input
    ensures r.Some? ==> |r.value.1| < |input|
  {
    if |input| < 5 then None
    else
      var n := Announced(input[1..5]);
      if |input| < 5 + n then None
      else Some((Frame(input[0], input[1..5], input[5..5 + n]), input[5 + n..]))
  }

  lemma NextFrameInverts(f: Frame, rest: Bytes)
    requires WellFramed(f)
    ensures NextFrame(Raw(f) + rest) == Some((f, rest))
  {
    var input := Raw(f) + rest;
    assert input[1..5] == f.length;
    assert input[5..5 + |f.body|] == f.body;
    assert input[5 + |f.body|..] == rest;
  }

  /** Every complete message of the input. */
  function Frames(input: Bytes): (r: seq<Frame>)
    ensures forall f :: f in r ==> WellFramed(f)
    decreases |input|
  {
    match NextFrame(input)
    case None => []
    case Some((f, rest)) => [f] + Frames(rest)
  }

  function Leftover(input: Bytes): (r: Bytes)
    decreases |input|
  {
    match NextFrame(input)
    case None => input
    case Some((_, rest)) => Leftover(rest)
  }

  lemma FramesUnfold(f: Frame, rest: Bytes)
    requires WellFramed(f)
    ensures Frames(Raw(f) + rest) == [f] + Frames(rest)
    ensures Leftover(Raw(f) + rest) == Leftover(rest)
  {
    hide Raw, WellFramed;
    NextFrameInverts(f, rest);
  }

  /** Reading loses nothing: the messages and the incomplete rest are the input. */
  lemma {:induction false} FramesCover(input: Bytes)
    ensures RawAll(Frames(input)) + Leftover(input) == input
    ensures NextFrame(Leftover(input)) == None
    decreases |input|
  {
    match NextFrame(input)
    case None =>
    case Some((f, rest)) =>
      FramesCover(rest);
      assert Frames(input)[1..] == Frames(rest);
      assert Raw(f) + (RawAll(Frames(rest)) + Leftover(rest)) == (Raw(f) + RawAll(Frames(rest))) + Leftover(rest);
  }

  /** Messages written one after the other are read back as exactly those messages. */
  lemma {:induction false} FramesInvert(frames: seq<Frame>, rest: Bytes)
    requires forall f :: f in frames ==> WellFramed(f)
    ensures Frames(RawAll(frames) + rest) == frames + Frames(rest)
    ensures Leftover(RawAll(frames) + rest) == Leftover(rest)
  {
    hide Raw, WellFramed, Frames, Leftover;
    if frames == [] {
      assert RawAll(frames) + rest == rest;
    } else {
      var tail := RawAll(frames[1..]) + rest;
      assert RawAll(frames) + rest == Raw(frames[0]) + tail;
      FramesUnfold(frames[0], tail);
      FramesInvert(frames[1..], rest);
      assert [frames[0]] + (frames[1..] + Frames(rest)) == frames + Frames(rest);
    }
  }

  /** A message of our own. */
  function Message(tag: Byte, body: Bytes): (r: Bytes) {
    [tag] + LengthField(|body| + 4) + body
  }

  /** What we write is a message with that tag and body, as long as its length fits. */
  lemma MessageIsFrame(tag: Byte, body: Bytes)
    requires |body| + 4 <= I32_MAX
    ensures Frames(Message(tag, body)) == [Frame(tag, LengthField(|body| + 4), body)]
    ensures Leftover(Message(tag, body)) == []
  {
    hide LengthField;
    LengthRoundTrip(|body| + 4);
    var f := Frame(tag, LengthField(|body| + 4), body);
    assert RawAll([f]) == Raw(f);
    assert RawAll([f]) + [] == Message(tag, body);
    FramesInvert([f], []);
  }
}
