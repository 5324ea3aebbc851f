/**
 Following a log over server-sent events: one connection is consumed frame by frame, and a
 reconnect loop resumes after the last record the consumer took.
 */
module LogFollow {
  import opened Wrappers
  import opened ByteStrings
  import opened SseFraming
  import opened SseFields

  const LOG: Bytes := [108, 111, 103]
  const READY: Bytes := [114, 101, 97, 100, 121]
  const RECONNECT: Bytes := [114, 101, 99, 111, 110, 110, 101, 99, 116]
  const ERROR: Bytes := [101, 114, 114, 111, 114]
  const MAX_STREAM_FAILURES: nat := 8
  const MAX_RECONNECT_DELAY: nat := 5_000

  datatype LogStreamEvent = LogStreamEvent(
    schemaVersion: nat, kind: Bytes, cursor: Bytes, lineCursor: Bytes, line: Bytes)

  datatype StreamControl = StreamControl(
    schemaVersion: nat, kind: Bytes, retryAfterMs: Option<U64>, retryable: Option<bool>)

  /** The JSON decoders, which may refuse any text. */
  datatype Decoder = Decoder(log: Bytes -> Option<LogStreamEvent>, control: Bytes -> Option<StreamControl>)

  datatype SinkVerdict = Took | Refused(retryable: bool)

  /** What the consumer answers when it is offered a record for the n-th time. */
  type Sink = nat -> SinkVerdict

  datatype ErrorKind =
    | FrameTooLarge | NonUtf8 | MissingId | InvalidCursor | InvalidEvent | MismatchedId | SinkFailed
    | InvalidControl | UnsupportedSchema | WrongControl | ServerError | Transport | HttpStatus
    | ErrorBody | ContentType | NoCheckpoint

  datatype StreamError = StreamError(kind: ErrorKind, retryable: bool)

  // ---- Resume cursors ---------------------------------------------------------------------

  /** Rust's `split`: the pieces between separators, always at least one. */
  function Pieces(s: Bytes, separator: Byte): (r: seq<Bytes>)
    ensures r != []
    decreases |s|
  {
    match IndexOf(s, separator)
    case None => [s]
    case Some(i) => [s[..i]] + Pieces(s[i + 1..], separator)
  }

  predicate UpperHex(s: Bytes) {
    forall i :: 0 <= i < |s| ==> Digit(s[i]) || 65 <= s[i] <= 70
  }

  predicate ValidCursor(value: Bytes) {
    var parts := Pieces(value, COLON);
    && |parts| == 4
    && parts[0] == [49]
    && 1 <= |parts[1]| <= 5 && Digits(parts[1])
    && 1 <= |parts[2]| <= 20 && Digits(parts[2])
    && 32 <= |parts[3]| <= 64 && UpperHex(parts[3])
  }

  function CursorText(shard: Bytes, time: Bytes, digest: Bytes): Bytes {
    [49, COLON] + shard + [COLON] + time + [COLON] + digest
  }

  lemma PiecesPeel(piece: Bytes, rest: Bytes)
    requires COLON !in piece
    ensures Pieces(piece + [COLON] + rest, COLON) == [piece] + Pieces(rest, COLON)
  {
    var s := piece + [COLON] + rest;
    assert s[..|piece|] == piece;
    IndexOfIs(s, COLON, |piece|);
    assert s[|piece| + 1..] == rest;
  }

  lemma {:induction false} PiecesJoin(s: Bytes)
    ensures Join(Pieces(s, COLON), [COLON]) == s
    decreases |s|
  {
    var at := IndexOf(s, COLON);
    if at.None? {
    } else {
      PiecesJoin(s[at.value + 1..]);
      assert Pieces(s, COLON)[1..] == Pieces(s[at.value + 1..], COLON);
      assert s == s[..at.value] + [COLON] + s[at.value + 1..];
    }
  }

  /** The three variable fields of a cursor. */
  predicate CursorFields(shard: Bytes, time: Bytes, digest: Bytes) {
    && 1 <= |shard| <= 5 && Digits(shard)
    && 1 <= |time| <= 20 && Digits(time)
    && 32 <= |digest| <= 64 && UpperHex(digest)
  }

  lemma CursorPieces(shard: Bytes, time: Bytes, digest: Bytes)
    requires COLON !in shard && COLON !in time && COLON !in digest
    ensures Pieces(CursorText(shard, time, digest), COLON) == [[49], shard, time, digest]
  {
    hide Pieces;
    assert CursorText(shard, time, digest) == [49] + [COLON] + (shard + [COLON] + (time + [COLON] + digest));
    PiecesPeel([49], shard + [COLON] + (time + [COLON] + digest));
    PiecesPeel(shard, time + [COLON] + digest);
    PiecesPeel(time, digest);
    LastPiece(digest);
  }

  lemma LastPiece(s: Bytes)
    requires COLON !in s
    ensures Pieces(s, COLON) == [s]
  {
    assert IndexOf(s, COLON) == None;
  }

  lemma JoinFour(a: Bytes, b: Bytes, c: Bytes, d: Bytes)
    ensures Join([a, b, c, d], [COLON]) == a + [COLON] + b + [COLON] + c + [COLON] + d
  {
    assert [a, b, c, d][1..] == [b, c, d] && [b, c, d][1..] == [c, d] && [c, d][1..] == [d];
    assert Join([c, d], [COLON]) == c + [COLON] + d;
    assert Join([b, c, d], [COLON]) == b + [COLON] + (c + [COLON] + d);
  }

  /** A cursor is valid exactly when it reads 1:<1-5 digits>:<1-20 digits>:<32-64 upper-case hex>. */
  lemma CursorShape(value: Bytes)
    ensures ValidCursor(value) <==>
            exists shard, time, digest ::
              CursorFields(shard, time, digest) && value == CursorText(shard, time, digest)
  {
    hide Pieces, Join;
    if ValidCursor(value) {
      var parts := Pieces(value, COLON);
      PiecesJoin(value);
      assert parts == [parts[0], parts[1], parts[2], parts[3]];
      JoinFour(parts[0], parts[1], parts[2], parts[3]);
      assert value == CursorText(parts[1], parts[2], parts[3]);
      assert CursorFields(parts[1], parts[2], parts[3]);
    }
    forall shard, time, digest | CursorFields(shard, time, digest)
      ensures ValidCursor(CursorText(shard, time, digest))
    {
      CursorPieces(shard, time, digest);
    }
  }

  // ---- One connection ---------------------------------------------------------------------

  /** What the consumer has taken, how often it was asked, and the resume point. */
  datatype Session = Session(emitted: seq<LogStreamEvent>, offers: nat, checkpoint: Option<Bytes>)

  datatype Outcome = Outcome(retryAfterMs: nat, reconnectRequested: bool)

  const FIRST_OUTCOME: Outcome := Outcome(1_000, false)

  datatype Progress = Going(session: Session, outcome: Outcome) | Failed(session: Session, error: StreamError)

  function Clamp(ms: nat): nat {
    if ms < 100 then 100 else if ms > 5_000 then 5_000 else ms
  }

  /** The record a "log" event carries, or why it is refused. */
  function LogRecord(decoder: Decoder, parsed: ParsedSse): (r: Result<LogStreamEvent, ErrorKind>)
    ensures r.Ok? ==> parsed.id == Some(r.value.cursor)
  {
    if parsed.id.None? then Err(MissingId)
    else if !ValidCursor(parsed.id.value) then Err(InvalidCursor)
    else
      match decoder.log(parsed.data)
      case None => Err(InvalidEvent)
      case Some(event) =>
        if event.schemaVersion != 1 || event.kind != LOG
           || event.cursor != parsed.id.value || event.lineCursor != parsed.id.value
        then Err(MismatchedId) else Ok(event)
  }

  function ParseControl(decoder: Decoder, data: Bytes): Result<StreamControl, ErrorKind> {
    match decoder.control(data)
    case None => Err(InvalidControl)
    case Some(control) => if control.schemaVersion != 1 then Err(UnsupportedSchema) else Ok(control)
  }

  function Emit(sink: Sink, session: Session, outcome: Outcome, event: LogStreamEvent): Progress {
    match sink(session.offers)
    case Refused(retryable) =>
      Failed(session.(offers := session.offers + 1), StreamError(SinkFailed, retryable))
    case Took =>
      Going(Session(session.emitted + [event], session.offers + 1, Some(event.cursor)), outcome)
  }

  function HandleControl(decoder: Decoder, parsed: ParsedSse, session: Session, outcome: Outcome): Progress
    requires parsed.event in {READY, RECONNECT, ERROR}
  {
    match ParseControl(decoder, parsed.data)
    case Err(kind) => Failed(session, StreamError(kind, false))
    case Ok(control) =>
      if control.kind != parsed.event then Failed(session, StreamError(WrongControl, false))
      else if parsed.event == READY then
        Going(session, if parsed.retry.None? then outcome else outcome.(retryAfterMs := Clamp(parsed.retry.value)))
      else if parsed.event == RECONNECT then
        var ms := if control.retryAfterMs.None? then 1_000 else control.retryAfterMs.value;
        Going(session, Outcome(Clamp(ms), true))
      else
        Failed(session, StreamError(ServerError, control.retryable == Some(true)))
  }

  function HandleEvent(decoder: Decoder, sink: Sink, parsed: ParsedSse, session: Session, outcome: Outcome): Progress {
    if parsed.event == LOG then
      match LogRecord(decoder, parsed)
      case Err(kind) => Failed(session, StreamError(kind, false))
      case Ok(event) => Emit(sink, session, outcome, event)
    else if parsed.event in {READY, RECONNECT, ERROR} then HandleControl(decoder, parsed, session, outcome)
    else Going(session, outcome)
  }

  function HandleFrame(decoder: Decoder, sink: Sink, frame: Bytes, session: Session, outcome: Outcome): Progress {
    if |frame| > MAX_SSE_FRAME_BYTES then Failed(session, StreamError(FrameTooLarge, false))
    else if frame == [] then Going(session, outcome)
    else
      match ParseFrame(frame)
      case Err(_) => Failed(session, StreamError(NonUtf8, false))
      case Ok(None) => Going(session, outcome)
      case Ok(Some(parsed)) => HandleEvent(decoder, sink, parsed, session, outcome)
  }

  function HandleFrames(decoder: Decoder, sink: Sink, frames: seq<Frame>, progress: Progress): Progress
    decreases |frames|
  {
    if frames == [] || progress.Failed? then progress
    else HandleFrames(decoder, sink, frames[1..],
                      HandleFrame(decoder, sink, frames[0].bytes, progress.session, progress.outcome))
  }

  datatype Connection = Connection(progress: Progress, buffer: Bytes)

  function ReadChunk(decoder: Decoder, sink: Sink, c: Connection, chunk: Bytes): Connection {
    if c.progress.Failed? then c
    else
      var found := Split(c.buffer + chunk);
      var progress := HandleFrames(decoder, sink, found.frames, c.progress);
      if progress.Going? && |found.rest| > MAX_SSE_FRAME_BYTES
      then Connection(Failed(progress.session, StreamError(FrameTooLarge, false)), found.rest)
      else Connection(progress, found.rest)
  }

  function ReadChunks(decoder: Decoder, sink: Sink, session: Session, chunks: seq<Bytes>): Connection {
    if chunks == [] then Connection(Going(session, FIRST_OUTCOME), [])
    else
      var n := |chunks| - 1;
      ReadChunk(decoder, sink, ReadChunks(decoder, sink, session, chunks[..n]), chunks[n])
  }

  /** How the body ended: closed by the server, or a timeout or transport failure. */
  datatype BodyEnd = Eof | Broken

  /** How a body ends after its chunks were handled. */
  function AtEnd(progress: Progress, end: BodyEnd): Progress {
    if progress.Going? && end.Broken? then Failed(progress.session, StreamError(Transport, true)) else progress
  }

  function Consume(decoder: Decoder, sink: Sink, session: Session, chunks: seq<Bytes>, end: BodyEnd): Progress {
    AtEnd(ReadChunks(decoder, sink, session, chunks).progress, end)
  }

  // ---- The source's loops -----------------------------------------------------------------

  method DrainFrames(decoder: Decoder, sink: Sink, start: Bytes, from: Progress)
    returns (buffer: Bytes, progress: Progress)
    requires from.Going?
    ensures progress == HandleFrames(decoder, sink, Split(start).frames, from)
    ensures progress.Going? ==> buffer == Split(start).rest
  {
    hide FrameBoundary, HandleFrame, Split;
    buffer := start;
    progress := from;
    var boundary := FrameBoundary(buffer);
    while boundary.Some?
      invariant boundary == FrameBoundary(buffer)
      invariant progress.Going?
      invariant HandleFrames(decoder, sink, Split(start).frames, from)
             == HandleFrames(decoder, sink, Split(buffer).frames, progress)
      invariant Split(buffer).rest == Split(start).rest
      decreases |buffer|
    {
      var Boundary(end, delimiter) := boundary.value;
      SplitUnfolds(buffer, boundary.value);
      var frame := buffer[..end];
      assert Split(buffer).frames[1..] == Split(buffer[end + delimiter..]).frames;
      buffer := buffer[end + delimiter..];
      progress := HandleFrame(decoder, sink, frame, progress.session, progress.outcome);
      if progress.Failed? {
        return;
      }
      boundary := FrameBoundary(buffer);
    }
    SplitStops(buffer);
  }

  method ConsumeSse(decoder: Decoder, sink: Sink, session: Session, chunks: seq<Bytes>, end: BodyEnd)
    returns (progress: Progress)
    ensures progress == Consume(decoder, sink, session, chunks, end)
  {
    hide HandleFrames, Split;
    var buffer: Bytes := [];
    progress := Going(session, FIRST_OUTCOME);
    for k := 0 to |chunks|
      invariant progress.Going?
      invariant Connection(progress, buffer) == ReadChunks(decoder, sink, session, chunks[..k])
    {
      assert chunks[..k + 1][..k] == chunks[..k];
      buffer, progress := DrainFrames(decoder, sink, buffer + chunks[k], progress);
      if progress.Going? && |buffer| > MAX_SSE_FRAME_BYTES {
        progress := Failed(progress.session, StreamError(FrameTooLarge, false));
      }
      if progress.Failed? {
        FailureIsFinal(decoder, sink, session, chunks, k + 1);
        return;
      }
    }
    assert chunks[..|chunks|] == chunks;
    if end.Broken? {
      progress := Failed(progress.session, StreamError(Transport, true));
    }
  }

  lemma {:induction false} FailureIsFinal(decoder: Decoder, sink: Sink, session: Session, chunks: seq<Bytes>, k: nat)
    requires k <= |chunks|
    requires ReadChunks(decoder, sink, session, chunks[..k]).progress.Failed?
    ensures ReadChunks(decoder, sink, session, chunks) == ReadChunks(decoder, sink, session, chunks[..k])
    decreases |chunks|
  {
    hide HandleFrames, Split;
    if k == |chunks| {
      assert chunks[..k] == chunks;
    } else {
      var n := |chunks| - 1;
      assert chunks[..n][..k] == chunks[..k];
      FailureIsFinal(decoder, sink, session, chunks[..n], k);
    }
  }

  // ---- What a connection hands on ---------------------------------------------------------

  /** The log record in a frame, if the client would offer it to its consumer. */
  function RecordOf(decoder: Decoder, frame: Bytes): Option<LogStreamEvent> {
    match ParseFrame(frame)
    case Ok(Some(parsed)) =>
      if parsed.event != LOG then None
      else (match LogRecord(decoder, parsed) case Ok(event) => Some(event) case Err(_) => None)
    case _ => None
  }

  function Records(decoder: Decoder, frames: seq<Frame>): seq<LogStreamEvent> {
    if frames == [] then []
    else
      (match RecordOf(decoder, frames[0].bytes) case Some(event) => [event] case None => [])
      + Records(decoder, frames[1..])
  }

  lemma {:induction false} RecordsAppend(decoder: Decoder, a: seq<Frame>, b: seq<Frame>)
    ensures Records(decoder, a + b) == Records(decoder, a) + Records(decoder, b)
    decreases |a|
  {
    hide RecordOf;
    if a == [] {
      assert a + b == b;
    } else {
      assert (a + b)[1..] == a[1..] + b;
      RecordsAppend(decoder, a[1..], b);
    }
  }

  function LastCursor(emitted: seq<LogStreamEvent>): Option<Bytes> {
    if emitted == [] then None else Some(emitted[|emitted| - 1].cursor)
  }

  predicate Consistent(session: Session) {
    session.checkpoint == LastCursor(session.emitted)
  }

  /** The session grew by some leading records, by all of them if nothing failed. */
  predicate Grew(before: Session, records: seq<LogStreamEvent>, after: Progress) {
    && before.emitted <= after.session.emitted
    && after.session.emitted[|before.emitted|..] <= records
    && (after.Going? ==> after.session.emitted == before.emitted + records)
    && Consistent(after.session)
  }

  lemma HandleFrameGrows(decoder: Decoder, sink: Sink, frame: Frame, session: Session, outcome: Outcome)
    requires Consistent(session)
    ensures Grew(session, Records(decoder, [frame]), HandleFrame(decoder, sink, frame.bytes, session, outcome))
  {
    hide ParseFrame, LogRecord, HandleControl;
    if ParseFrame(frame.bytes).Ok? && ParseFrame(frame.bytes).value.Some? {
      var parsed := ParseFrame(frame.bytes).value.value;
      if parsed.event in {READY, RECONNECT, ERROR} {
        ControlTakesNothing(decoder, parsed, session, outcome);
      }
    }
    EmptyFrame();
    assert Records(decoder, [frame][1..]) == [];
  }

  lemma ControlTakesNothing(decoder: Decoder, parsed: ParsedSse, session: Session, outcome: Outcome)
    requires parsed.event in {READY, RECONNECT, ERROR}
    ensures HandleControl(decoder, parsed, session, outcome).session == session
    ensures parsed.event != LOG
  {
    assert LOG[0] == 108 && READY[0] == 114 && RECONNECT[0] == 114 && ERROR[0] == 101;
  }

  lemma EmptyFrame()
    ensures ParseFrame([]) == Ok(None)
  {
    assert Lines([]) == [];
  }

  lemma {:induction false} HandleFramesGrows(decoder: Decoder, sink: Sink, frames: seq<Frame>, progress: Progress)
    requires progress.Going? && Consistent(progress.session)
    ensures Grew(progress.session, Records(decoder, frames), HandleFrames(decoder, sink, frames, progress))
    decreases |frames|
  {
    hide HandleFrame, RecordOf;
    if frames == [] {
    } else {
      var session := progress.session;
      var next := HandleFrame(decoder, sink, frames[0].bytes, session, progress.outcome);
      HandleFrameGrows(decoder, sink, frames[0], session, progress.outcome);
      assert frames == [frames[0]] + frames[1..];
      RecordsAppend(decoder, [frames[0]], frames[1..]);
      var now, later := Records(decoder, [frames[0]]), Records(decoder, frames[1..]);
      if next.Going? {
        HandleFramesGrows(decoder, sink, frames[1..], next);
        GrewInTwoSteps(session, now, next, later, HandleFrames(decoder, sink, frames[1..], next));
      } else {
        PrefixExtends(next.session.emitted[|session.emitted|..], now, later);
      }
    }
  }

  lemma GrewInTwoSteps(s0: Session, r1: seq<LogStreamEvent>, p1: Progress, r2: seq<LogStreamEvent>, p2: Progress)
    requires Grew(s0, r1, p1) && p1.Going? && Grew(p1.session, r2, p2)
    ensures Grew(s0, r1 + r2, p2)
  {
    assert p1.session.emitted == s0.emitted + r1;
    assert p2.session.emitted[|s0.emitted|..] == r1 + p2.session.emitted[|p1.session.emitted|..];
  }

  /** However a body is chunked and however it ends, the consumer takes a prefix of its records. */
  lemma {:induction false} ReadChunksGrows(decoder: Decoder, sink: Sink, session: Session, chunks: seq<Bytes>)
    requires Consistent(session)
    ensures var c := ReadChunks(decoder, sink, session, chunks);
            && Grew(session, Records(decoder, Split(Concat(chunks)).frames), c.progress)
            && (c.progress.Going? ==> c.buffer == Split(Concat(chunks)).rest)
  {
    hide HandleFrames, RecordOf, Split, FrameBoundary;
    if chunks == [] {
      SplitStops([]);
    } else {
      var n := |chunks| - 1;
      ReadChunksGrows(decoder, sink, session, chunks[..n]);
      SplitIsIncremental(Concat(chunks[..n]), chunks[n]);
      var before := ReadChunks(decoder, sink, session, chunks[..n]);
      var seen, fresh_ := Split(Concat(chunks[..n])).frames, Split(Split(Concat(chunks[..n])).rest + chunks[n]).frames;
      RecordsAppend(decoder, seen, fresh_);
      if before.progress.Going? {
        HandleFramesGrows(decoder, sink, fresh_, before.progress);
        GrewInTwoSteps(session, Records(decoder, seen), before.progress, Records(decoder, fresh_),
                       HandleFrames(decoder, sink, fresh_, before.progress));
      }
    }
  }

  // ---- The consumer and the framer --------------------------------------------------------

  lemma {:induction false} HandleFramesAppend(
    decoder: Decoder, sink: Sink, a: seq<Frame>, b: seq<Frame>, progress: Progress)
    ensures HandleFrames(decoder, sink, a + b, progress)
         == HandleFrames(decoder, sink, b, HandleFrames(decoder, sink, a, progress))
    decreases |a|
  {
    hide HandleFrame;
    if a == [] {
      assert a + b == b;
    } else if progress.Going? {
      assert (a + b)[1..] == a[1..] + b;
      HandleFramesAppend(
        decoder, sink, a[1..], b, HandleFrame(decoder, sink, a[0].bytes, progress.session, progress.outcome));
    }
  }

  /** The consumer gives up on a stream it would have had to buffer too much of. */
  function GivingUp(progress: Progress, oversize: bool): Progress {
    if progress.Going? && oversize
    then Failed(progress.session, StreamError(FrameTooLarge, false)) else progress
  }

  /** A consumer that handles frames as they are found stops at the first frame over the limit. */
  lemma HandlesTheFitting(decoder: Decoder, sink: Sink, frames: seq<Frame>, from: Progress)
    ensures HandleFrames(decoder, sink, frames, from)
         == GivingUp(HandleFrames(decoder, sink, frames[..Fitting(frames)], from), Fitting(frames) < |frames|)
  {
    hide Fitting;
    var n := Fitting(frames);
    assert frames == frames[..n] + frames[n..];
    HandleFramesAppend(decoder, sink, frames[..n], frames[n..], from);
    var handled := HandleFrames(decoder, sink, frames[..n], from);
    if n == |frames| {
      FailureStays(decoder, sink, frames[n..], handled);
    } else {
      assert frames[n..][0] == frames[n];
      FailureStays(decoder, sink, frames[n..][1..], GivingUp(handled, true));
    }
  }

  lemma FailureStays(decoder: Decoder, sink: Sink, frames: seq<Frame>, progress: Progress)
    requires progress.Failed? || frames == []
    ensures HandleFrames(decoder, sink, frames, progress) == progress
  {
  }

  /**
   The consumer handles exactly the frames the framer delivers, in order, and reports a frame too
   large exactly when the framer gives up and none of those frames made it fail before.
   */
  lemma {:induction false} ReaderIsFramer(decoder: Decoder, sink: Sink, session: Session, chunks: seq<Bytes>)
    ensures var c := ReadChunks(decoder, sink, session, chunks);
            var fed := FeedAll(chunks);
            && c.progress
               == GivingUp(HandleFrames(decoder, sink, fed.delivered, Going(session, FIRST_OUTCOME)), fed.oversize)
            && (c.progress.Going? ==> c.buffer == fed.buffer)
  {
    hide HandleFrames, Split, Fitting;
    if chunks == [] {
      FailureStays(decoder, sink, [], Going(session, FIRST_OUTCOME));
    } else {
      var n := |chunks| - 1;
      ReaderIsFramer(decoder, sink, session, chunks[..n]);
      var before, fed := ReadChunks(decoder, sink, session, chunks[..n]), FeedAll(chunks[..n]);
      var found := Split(fed.buffer + chunks[n]);
      var start := Going(session, FIRST_OUTCOME);
      var fitting := found.frames[..Fitting(found.frames)];
      if !fed.oversize {
        HandleFramesAppend(decoder, sink, fed.delivered, fitting, start);
        HandlesTheFitting(decoder, sink, found.frames, before.progress);
        if before.progress.Failed? {
          FailureStays(decoder, sink, fitting, before.progress);
        }
      }
    }
  }

  /** What a consumer does when it is handed the events themselves. */
  function HandleEvents(decoder: Decoder, sink: Sink, sent: seq<Sent>, progress: Progress): Progress
    requires AllRenderable(sent)
  {
    if sent == [] || progress.Failed? then progress
    else HandleEvents(decoder, sink, sent[1..],
                      HandleEvent(decoder, sink, Meaning(sent[0].event), progress.session, progress.outcome))
  }

  lemma {:induction false} RenderedFramesMean(decoder: Decoder, sink: Sink, sent: seq<Sent>, progress: Progress)
    requires AllRenderable(sent) && AllRoomy(FramesOf(sent), |sent|)
    ensures HandleFrames(decoder, sink, FramesOf(sent), progress) == HandleEvents(decoder, sink, sent, progress)
    decreases |sent|
  {
    hide ParseFrame, HandleEvent, Renderable, Meaning, FrameOf;
    if sent == [] || progress.Failed? {
    } else {
      var Sent(event, ending) := sent[0];
      ParseInvertsRender(event, ending);
      EmptyFrame();
      var frames := FramesOf(sent);
      assert frames[1..] == FramesOf(sent[1..]);
      assert Roomy(frames[0]);
      forall i | 0 <= i < |sent| - 1
        ensures Roomy(frames[1..][i])
      {
        assert Roomy(frames[i + 1]);
      }
      RenderedFramesMean(decoder, sink, sent[1..],
                         HandleEvent(decoder, sink, Meaning(event), progress.session, progress.outcome));
    }
  }

  /**
   The round trip, end to end: whatever chunks the network cuts a rendered stream into, and whatever
   the decoders and the consumer answer, the client does what it would do if it were handed the events.
   */
  lemma EventsReachTheConsumer(
    decoder: Decoder, sink: Sink, session: Session, sent: seq<Sent>, chunks: seq<Bytes>, end: BodyEnd)
    requires AllRenderable(sent) && AllRoomy(FramesOf(sent), |sent|)
    requires Concat(chunks) == RenderAll(sent)
    ensures Consume(decoder, sink, session, chunks, end)
         == AtEnd(HandleEvents(decoder, sink, sent, Going(session, FIRST_OUTCOME)), end)
  {
    hide HandleFrames, HandleEvents, Split, FeedAll, ReadChunks, FramesOf;
    SplitInvertsRender(sent);
    RoomyIsAccepted(chunks);
    ReaderIsFramer(decoder, sink, session, chunks);
    RenderedFramesMean(decoder, sink, sent, Going(session, FIRST_OUTCOME));
  }

  /** A frame over the limit ends the connection, after exactly the frames before it were handled. */
  lemma OversizeEndsTheConnection(
    decoder: Decoder, sink: Sink, session: Session, chunks: seq<Bytes>, end: BodyEnd, k: nat)
    requires k < |Split(Concat(chunks)).frames|
    requires AllRoomy(Split(Concat(chunks)).frames, k)
    requires |Split(Concat(chunks)).frames[k].bytes| > MAX_SSE_FRAME_BYTES
    ensures Consume(decoder, sink, session, chunks, end)
         == GivingUp(
              HandleFrames(decoder, sink, Split(Concat(chunks)).frames[..k], Going(session, FIRST_OUTCOME)), true)
  {
    hide HandleFrames, Split, FeedAll, ReadChunks;
    OversizeIsRefused(chunks, k);
    ReaderIsFramer(decoder, sink, session, chunks);
  }

  /** The client never notices how a body was cut when every frame and the tail leave room. */
  lemma ConsumerIgnoresChunking(
    decoder: Decoder, sink: Sink, session: Session, a: seq<Bytes>, b: seq<Bytes>, end: BodyEnd)
    requires Concat(a) == Concat(b)
    requires AllRoomy(Split(Concat(a)).frames, |Split(Concat(a)).frames|)
    requires |Split(Concat(a)).rest| <= MAX_SSE_FRAME_BYTES
    ensures Consume(decoder, sink, session, a, end) == Consume(decoder, sink, session, b, end)
  {
    hide HandleFrames, Split, FeedAll, ReadChunks;
    RoomyIsAccepted(a);
    RoomyIsAccepted(b);
    ReaderIsFramer(decoder, sink, session, a);
    ReaderIsFramer(decoder, sink, session, b);
  }

  // ---- The reconnect loop -----------------------------------------------------------------

  /** One request and what came back. A failing status may also come with an unreadable body. */
  datatype Attempt =
    | NoResponse
    | HttpFailure(retryable: bool, errorBody: Option<StreamError>)
    | WrongContentType
    | Body(chunks: seq<Bytes>, end: BodyEnd)

  datatype Follow =
    | Following(session: Session, failures: nat, delay: nat)
    | Stopped(session: Session, error: StreamError)

  const START: Follow := Following(Session([], 0, None), 0, 250)

  /** Counting a failure and backing off. */
  function Retry(session: Session, failures: nat, delay: nat, error: StreamError): Follow {
    if failures + 1 >= MAX_STREAM_FAILURES then Stopped(session, error)
    else Following(session, failures + 1, Minimum(2 * delay, MAX_RECONNECT_DELAY))
  }

  function Step(decoder: Decoder, sink: Sink, f: Follow, attempt: Attempt): Follow
    requires f.Following?
  {
    match attempt
    case NoResponse => Retry(f.session, f.failures, f.delay, StreamError(Transport, true))
    case HttpFailure(retryable, errorBody) =>
      if errorBody.Some? then Stopped(f.session, errorBody.value)
      else if !retryable then Stopped(f.session, StreamError(HttpStatus, false))
      else Retry(f.session, f.failures, f.delay, StreamError(HttpStatus, true))
    case WrongContentType => Stopped(f.session, StreamError(ContentType, false))
    case Body(chunks, end) =>
      match Consume(decoder, sink, f.session, chunks, end)
      case Failed(session, error) =>
        if error.retryable then Retry(session, f.failures, f.delay, error) else Stopped(session, error)
      case Going(session, outcome) =>
        if outcome.reconnectRequested then Following(session, 0, Clamp(outcome.retryAfterMs))
        else if f.failures + 1 >= MAX_STREAM_FAILURES then Stopped(session, StreamError(NoCheckpoint, true))
        else Following(session, f.failures + 1, Clamp(outcome.retryAfterMs))
  }

  /** The loop after a series of attempts; it ignores what comes after it has returned. */
  function FollowAll(decoder: Decoder, sink: Sink, script: seq<Attempt>): Follow {
    if script == [] then START
    else
      var f := FollowAll(decoder, sink, script[..|script| - 1]);
      if f.Stopped? then f else Step(decoder, sink, f, script[|script| - 1])
  }

  lemma {:induction false} StoppedIsFinal(decoder: Decoder, sink: Sink, script: seq<Attempt>, k: nat)
    requires k <= |script| && FollowAll(decoder, sink, script[..k]).Stopped?
    ensures FollowAll(decoder, sink, script) == FollowAll(decoder, sink, script[..k])
    decreases |script|
  {
    if k == |script| {
      assert script[..k] == script;
    } else {
      var n := |script| - 1;
      assert script[..n][..k] == script[..k];
      StoppedIsFinal(decoder, sink, script[..n], k);
    }
  }

  /** The source's loop, run until it returns or the script of network behaviour is used up. */
  method FollowLogs(decoder: Decoder, sink: Sink, script: seq<Attempt>) returns (f: Follow)
    ensures f == FollowAll(decoder, sink, script)
  {
    hide Consume;
    var session := Session([], 0, None);
    var failures: nat, delay: nat := 0, 250;
    for k := 0 to |script|
      invariant Following(session, failures, delay) == FollowAll(decoder, sink, script[..k])
    {
      assert script[..k + 1][..k] == script[..k];
      var failure: Option<StreamError> := None;
      match script[k] {
        case NoResponse =>
          failure := Some(StreamError(Transport, true));
        case HttpFailure(retryable, errorBody) =>
          failure := if errorBody.Some? then errorBody else Some(StreamError(HttpStatus, retryable));
          if errorBody.Some? {
            StoppedIsFinal(decoder, sink, script, k + 1);
            return Stopped(session, errorBody.value);
          }
        case WrongContentType =>
          failure := Some(StreamError(ContentType, false));
        case Body(chunks, end) =>
          var progress := ConsumeSse(decoder, sink, session, chunks, end);
          session := progress.session;
          if progress.Failed? {
            failure := Some(progress.error);
          } else {
            if progress.outcome.reconnectRequested {
              failures := 0;
            } else {
              failures := failures + 1;
              if failures >= MAX_STREAM_FAILURES {
                StoppedIsFinal(decoder, sink, script, k + 1);
                return Stopped(session, StreamError(NoCheckpoint, true));
              }
            }
            delay := Clamp(progress.outcome.retryAfterMs);
          }
      }
      if failure.Some? {
        if !failure.value.retryable {
          StoppedIsFinal(decoder, sink, script, k + 1);
          return Stopped(session, failure.value);
        }
        failures := failures + 1;
        if failures >= MAX_STREAM_FAILURES {
          StoppedIsFinal(decoder, sink, script, k + 1);
          return Stopped(session, failure.value);
        }
        delay := Minimum(2 * delay, MAX_RECONNECT_DELAY);
      }
    }
    assert script[..|script|] == script;
    f := Following(session, failures, delay);
  }

  // ---- No gaps, no duplicates -------------------------------------------------------------

  predicate DistinctCursors(log: seq<LogStreamEvent>) {
    forall i, j :: 0 <= i < j < |log| ==> log[i].cursor != log[j].cursor
  }

  /** Where the server resumes: after the record the cursor names, or at the start. */
  ghost function ResumeIndex(log: seq<LogStreamEvent>, cursor: Option<Bytes>): (k: nat)
    ensures k <= |log|
  {
    if c: nat :| c < |log| && cursor == Some(log[c].cursor) then c + 1 else 0
  }

  /** The bytes that arrived are a truncation of a body whose records continue the log. */
  ghost predicate HonestBody(decoder: Decoder, log: seq<LogStreamEvent>, cursor: Option<Bytes>, received: Bytes) {
    exists body :: received <= body && Records(decoder, Split(body).frames) <= log[ResumeIndex(log, cursor)..]
  }

  /** Every body the client starts to read is honest about the cursor it was requested with. */
  ghost predicate HonestServer(decoder: Decoder, sink: Sink, log: seq<LogStreamEvent>, script: seq<Attempt>) {
    forall k :: 0 <= k < |script| ==> HonestAttempt(decoder, log, FollowAll(decoder, sink, script[..k]), script[k])
  }

  ghost predicate HonestAttempt(decoder: Decoder, log: seq<LogStreamEvent>, f: Follow, attempt: Attempt) {
    f.Following? && attempt.Body? ==> HonestBody(decoder, log, f.session.checkpoint, Concat(attempt.chunks))
  }

  lemma ResumesAfter(log: seq<LogStreamEvent>, emitted: seq<LogStreamEvent>)
    requires DistinctCursors(log) && emitted <= log
    ensures ResumeIndex(log, LastCursor(emitted)) == |emitted|
  {
    if emitted != [] {
      var n := |emitted| - 1;
      assert LastCursor(emitted) == Some(log[n].cursor);
      forall c: nat | c < |log| && LastCursor(emitted) == Some(log[c].cursor)
        ensures c == n
      {
        assert !(c < n) && !(n < c);
      }
    }
  }

  lemma TruncatedRecords(decoder: Decoder, received: Bytes, body: Bytes)
    requires received <= body
    ensures Records(decoder, Split(received).frames) <= Records(decoder, Split(body).frames)
  {
    hide Split, Records;
    var a, b := Split(received).frames, Split(body).frames;
    assert body == received + body[|received|..];
    SplitPrefix(received, body[|received|..]);
    RecordsAppend(decoder, a, b[|a|..]);
    assert b == a + b[|a|..];
  }

  /** The consumer has taken a prefix of the log and the checkpoint names its last record. */
  predicate Aligned(log: seq<LogStreamEvent>, f: Follow) {
    f.session.emitted <= log && Consistent(f.session)
  }

  lemma PrefixGrows<T>(log: seq<T>, done: seq<T>, after: seq<T>)
    requires done <= log && done <= after && after[|done|..] <= log[|done|..]
    ensures after <= log
  {
    assert after == done + after[|done|..];
    assert log == done + log[|done|..];
  }

  lemma BodyKeepsAligned(decoder: Decoder, sink: Sink, log: seq<LogStreamEvent>, session: Session, chunks: seq<Bytes>)
    requires DistinctCursors(log) && session.emitted <= log && Consistent(session)
    requires HonestBody(decoder, log, session.checkpoint, Concat(chunks))
    ensures var after := ReadChunks(decoder, sink, session, chunks).progress.session;
            session.emitted <= after.emitted <= log && Consistent(after)
  {
    hide Split, HandleFrames, RecordOf, ReadChunks, Records, ResumeIndex;
    var received := Concat(chunks);
    var body :| received <= body
      && Records(decoder, Split(body).frames) <= log[ResumeIndex(log, session.checkpoint)..];
    ResumesAfter(log, session.emitted);
    TruncatedRecords(decoder, received, body);
    ReadChunksGrows(decoder, sink, session, chunks);
    PrefixGrows(log, session.emitted, ReadChunks(decoder, sink, session, chunks).progress.session.emitted);
  }

  lemma AttemptKeepsAligned(decoder: Decoder, sink: Sink, log: seq<LogStreamEvent>, f: Follow, attempt: Attempt)
    requires DistinctCursors(log)
    requires f.Following? && Aligned(log, f) && HonestAttempt(decoder, log, f, attempt)
    ensures Aligned(log, Step(decoder, sink, f, attempt))
    ensures f.session.emitted <= Step(decoder, sink, f, attempt).session.emitted
  {
    hide Split, ReadChunks, HonestBody, ResumeIndex;
    if attempt.Body? {
      BodyKeepsAligned(decoder, sink, log, f.session, attempt.chunks);
    }
  }

  /**
   The main result: over any number of connections, chunkings, truncations, transport errors and
   refusals by the consumer, what the consumer has taken is a prefix of the server's log.
   */
  lemma {:induction false} FollowIsGapFree(decoder: Decoder, sink: Sink, log: seq<LogStreamEvent>, script: seq<Attempt>)
    requires DistinctCursors(log) && HonestServer(decoder, sink, log, script)
    ensures Aligned(log, FollowAll(decoder, sink, script))
  {
    if script == [] {
    } else {
      var n := |script| - 1;
      forall k | 0 <= k < n
        ensures HonestAttempt(decoder, log, FollowAll(decoder, sink, script[..n][..k]), script[..n][k])
      {
        assert script[..n][..k] == script[..k];
      }
      FollowIsGapFree(decoder, sink, log, script[..n]);
      var f := FollowAll(decoder, sink, script[..n]);
      if f.Following? {
        AttemptKeepsAligned(decoder, sink, log, f, script[n]);
      }
    }
  }

  // ---- A rendering server is honest -------------------------------------------------------

  function RecordIn(decoder: Decoder, e: ServerEvent): Option<LogStreamEvent>
    requires Renderable(e)
  {
    if e.event != LOG then None
    else (match LogRecord(decoder, Meaning(e)) case Ok(event) => Some(event) case Err(_) => None)
  }

  function ServedRecords(decoder: Decoder, sent: seq<Sent>): seq<LogStreamEvent>
    requires AllRenderable(sent)
  {
    if sent == [] then []
    else
      (match RecordIn(decoder, sent[0].event) case Some(event) => [event] case None => [])
      + ServedRecords(decoder, sent[1..])
  }

  lemma {:induction false} RenderedRecords(decoder: Decoder, sent: seq<Sent>)
    requires AllRenderable(sent)
    ensures Records(decoder, FramesOf(sent)) == ServedRecords(decoder, sent)
  {
    hide ParseFrame, LogRecord;
    if sent == [] {
    } else {
      ParseInvertsRender(sent[0].event, sent[0].ending);
      assert FramesOf(sent)[1..] == FramesOf(sent[1..]);
      RenderedRecords(decoder, sent[1..]);
    }
  }

  /** Writing the next records of the log, cut off anywhere, is honest. */
  lemma RenderingIsHonest(
    decoder: Decoder, log: seq<LogStreamEvent>, cursor: Option<Bytes>, sent: seq<Sent>, received: Bytes)
    requires AllRenderable(sent)
    requires ServedRecords(decoder, sent) <= log[ResumeIndex(log, cursor)..]
    requires received <= RenderAll(sent)
    ensures HonestBody(decoder, log, cursor, received)
  {
    SplitInvertsRender(sent);
    RenderedRecords(decoder, sent);
    assert Records(decoder, Split(RenderAll(sent)).frames) <= log[ResumeIndex(log, cursor)..];
  }

  // ---- Bounded retries --------------------------------------------------------------------

  predicate Reconnects(decoder: Decoder, sink: Sink, f: Follow, attempt: Attempt) {
    f.Following? && attempt.Body?
    && var progress := Consume(decoder, sink, f.session, attempt.chunks, attempt.end);
       progress.Going? && progress.outcome.reconnectRequested
  }

  /** How many attempts ended in a reconnect checkpoint of the server. */
  function Checkpoints(decoder: Decoder, sink: Sink, script: seq<Attempt>): nat {
    if script == [] then 0
    else
      var n := |script| - 1;
      Checkpoints(decoder, sink, script[..n])
      + if Reconnects(decoder, sink, FollowAll(decoder, sink, script[..n]), script[n]) then 1 else 0
  }

  /** How many attempts were made since the last checkpoint. */
  function SinceCheckpoint(decoder: Decoder, sink: Sink, script: seq<Attempt>): nat {
    if script == [] then 0
    else
      var n := |script| - 1;
      if Reconnects(decoder, sink, FollowAll(decoder, sink, script[..n]), script[n]) then 0
      else SinceCheckpoint(decoder, sink, script[..n]) + 1
  }

  /**
   While the loop runs, the failure counter is the number of attempts since the last checkpoint and
   stays below eight; so a run with r checkpoints makes at most 8r + 8 attempts. The delay before
   the next attempt stays between 100 ms and 5 s.
   */
  lemma {:induction false} RetriesAreBounded(decoder: Decoder, sink: Sink, script: seq<Attempt>)
    requires FollowAll(decoder, sink, script).Following?
    ensures FollowAll(decoder, sink, script).failures == SinceCheckpoint(decoder, sink, script) < MAX_STREAM_FAILURES
    ensures |script| < MAX_STREAM_FAILURES * (Checkpoints(decoder, sink, script) + 1)
    ensures |script| <= 8 * Checkpoints(decoder, sink, script) + SinceCheckpoint(decoder, sink, script)
    ensures 100 <= FollowAll(decoder, sink, script).delay <= MAX_RECONNECT_DELAY
  {
    hide Consume;
    if script == [] {
    } else {
      RetriesAreBounded(decoder, sink, script[..|script| - 1]);
    }
  }
}
