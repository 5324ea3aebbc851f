/**
 What a client that follows a log does with what a server sends it, in terms of the server's events:
 good records are all taken, control events are obeyed, and everything else is refused by its name.
 */
module LogDelivery {
  import opened Wrappers
  import opened ByteStrings
  import opened SseFraming
  import opened SseFields
  import opened LogFollow

  /** The text the data lines of an event stand for. */
  function DataOf(sent: Sent): Bytes
    requires Renderable(sent.event)
  {
    Join(sent.event.data, [LF])
  }

  /** A cursor reads 1:<1-5 digits>:<1-20 digits>:<32-64 upper-case hexadecimal digits>. */
  ghost predicate CursorReads(cursor: Bytes) {
    exists shard, time, digest ::
      FieldsRead(shard, time, digest)
      && cursor == Ascii("1:") + shard + Ascii(":") + time + Ascii(":") + digest
  }

  predicate FieldsRead(shard: Bytes, time: Bytes, digest: Bytes) {
    && 1 <= |shard| <= 5 && 1 <= |time| <= 20 && 32 <= |digest| <= 64
    && (forall i :: 0 <= i < |shard| ==> shard[i] in Ascii("0123456789"))
    && (forall i :: 0 <= i < |time| ==> time[i] in Ascii("0123456789"))
    && (forall i :: 0 <= i < |digest| ==> digest[i] in Ascii("0123456789ABCDEF"))
  }

  lemma CursorReadsIff(cursor: Bytes)
    ensures ValidCursor(cursor) <==> CursorReads(cursor)
  {
    hide ValidCursor, CursorText, CursorFields;
    CursorShape(cursor);
    forall shard, time, digest
      ensures FieldsRead(shard, time, digest) <==> CursorFields(shard, time, digest)
      ensures CursorText(shard, time, digest) == Ascii("1:") + shard + Ascii(":") + time + Ascii(":") + digest
    {
      FieldsAgree(shard, time, digest);
    }
  }

  lemma FieldsAgree(shard: Bytes, time: Bytes, digest: Bytes)
    ensures FieldsRead(shard, time, digest) <==> CursorFields(shard, time, digest)
    ensures CursorText(shard, time, digest) == Ascii("1:") + shard + Ascii(":") + time + Ascii(":") + digest
  {
    hide Digit;
    assert Ascii("1:") == [49, COLON] && Ascii(":") == [COLON];
    forall b: Byte
      ensures b in Ascii("0123456789") <==> Digit(b)
      ensures b in Ascii("0123456789ABCDEF") <==> Digit(b) || 65 <= b <= 70
    {
      DigitReads(b);
    }
    hide Ascii;
  }

  lemma DigitReads(b: Byte)
    ensures b in Ascii("0123456789") <==> Digit(b)
    ensures b in Ascii("0123456789ABCDEF") <==> Digit(b) || 65 <= b <= 70
  {
    var digits, hex := Ascii("0123456789"), Ascii("0123456789ABCDEF");
    assert |digits| == 10 && |hex| == 16;
    if Digit(b) {
      assert digits[b - 48] == b && hex[b - 48] == b;
    } else if 65 <= b <= 70 {
      assert hex[b - 55] == b;
    }
  }

  /** A "log" event that carries this record, as version 1 of the contract has it. */
  ghost predicate Carries(decoder: Decoder, sent: Sent, record: LogStreamEvent) {
    && Renderable(sent.event) && sent.event.event == Ascii("log")
    && sent.event.id == Some(record.cursor) && CursorReads(record.cursor)
    && decoder.log(DataOf(sent)) == Some(record)
    && record.schemaVersion == 1 && record.kind == Ascii("log") && record.lineCursor == record.cursor
  }

  ghost predicate CarryAll(decoder: Decoder, sent: seq<Sent>, records: seq<LogStreamEvent>) {
    |sent| == |records| && forall i :: 0 <= i < |sent| ==> Carries(decoder, sent[i], records[i])
  }

  ghost predicate TakesEverything(sink: Sink) {
    forall n :: sink(n) == Took
  }

  /** The session of a consumer that took these records one after the other. */
  function Taken(session: Session, records: seq<LogStreamEvent>): (after: Session)
    ensures after.emitted == session.emitted + records
    ensures after.checkpoint == if records == [] then session.checkpoint else Some(records[|records| - 1].cursor)
  {
    Session(session.emitted + records, session.offers + |records|,
            if records == [] then session.checkpoint else Some(records[|records| - 1].cursor))
  }

  lemma Texts()
    ensures LOG == Ascii("log") && READY == Ascii("ready") && RECONNECT == Ascii("reconnect")
    ensures ERROR == Ascii("error")
    ensures LOG != READY && LOG != RECONNECT && LOG != ERROR
    ensures READY != RECONNECT && READY != ERROR && RECONNECT != ERROR
  {
    assert |LOG| == 3 && |READY| == 5 && |RECONNECT| == 9 && |ERROR| == 5 && READY[0] == 114 && ERROR[0] == 101;
  }

  lemma OneRecord(decoder: Decoder, sink: Sink, sent: Sent, record: LogStreamEvent, session: Session, outcome: Outcome)
    requires TakesEverything(sink) && Carries(decoder, sent, record)
    ensures HandleEvent(decoder, sink, Meaning(sent.event), session, outcome)
         == Going(Taken(session, [record]), outcome)
  {
    hide ValidCursor, CursorReads, Renderable;
    Texts();
    CursorReadsIff(record.cursor);
  }

  lemma {:induction false} RecordsAreHandled(
    decoder: Decoder, sink: Sink, sent: seq<Sent>, records: seq<LogStreamEvent>, session: Session, outcome: Outcome)
    requires TakesEverything(sink) && AllRenderable(sent) && CarryAll(decoder, sent, records)
    ensures HandleEvents(decoder, sink, sent, Going(session, outcome)) == Going(Taken(session, records), outcome)
    decreases |sent|
  {
    hide HandleEvent, Carries, Renderable, Meaning;
    if sent == [] {
      assert records == [];
    } else {
      OneRecord(decoder, sink, sent[0], records[0], session, outcome);
      RecordsAreHandled(decoder, sink, sent[1..], records[1..], Taken(session, [records[0]]), outcome);
      assert [records[0]] + records[1..] == records;
      assert session.emitted + [records[0]] + records[1..] == session.emitted + records;
    }
  }

  lemma CarriedAreRenderable(decoder: Decoder, sent: seq<Sent>, records: seq<LogStreamEvent>)
    requires CarryAll(decoder, sent, records)
    ensures AllRenderable(sent)
  {
    hide Renderable;
    assert forall i :: 0 <= i < |sent| ==> Carries(decoder, sent[i], records[i]);
  }

  /**
   Every good record is taken: however the stream is cut, a consumer that takes what it is offered ends
   with exactly these records appended, in order, and the last cursor as its resume point.
   */
  lemma RecordsAreTaken(
    decoder: Decoder, sink: Sink, session: Session, sent: seq<Sent>, records: seq<LogStreamEvent>,
    chunks: seq<Bytes>)
    requires TakesEverything(sink) && CarryAll(decoder, sent, records) && AllRenderable(sent)
    requires AllRoomy(FramesOf(sent), |sent|) && Concat(chunks) == RenderAll(sent)
    ensures var r := Consume(decoder, sink, session, chunks, Eof);
            && r.Going? && r.session.emitted == session.emitted + records
            && r.session.checkpoint
               == (if records == [] then session.checkpoint else Some(records[|records| - 1].cursor))
            && r.outcome == Outcome(1_000, false)
  {
    hide Consume, HandleEvents, FramesOf, RenderAll;
    EventsReachTheConsumer(decoder, sink, session, sent, chunks, Eof);
    RecordsAreHandled(decoder, sink, sent, records, session, FIRST_OUTCOME);
  }

  // ---- One more event ---------------------------------------------------------------------

  lemma {:induction false} HandleOneMore(decoder: Decoder, sink: Sink, sent: seq<Sent>, last: Sent, progress: Progress)
    requires AllRenderable(sent) && Renderable(last.event)
    ensures AllRenderable(sent + [last])
    ensures var before := HandleEvents(decoder, sink, sent, progress);
            HandleEvents(decoder, sink, sent + [last], progress)
            == if before.Failed? then before
               else HandleEvent(decoder, sink, Meaning(last.event), before.session, before.outcome)
    decreases |sent|
  {
    hide HandleEvent, Renderable, Meaning;
    if sent == [] {
      assert [] + [last] == [last] && [last][1..] == [];
    } else if progress.Going? {
      assert (sent + [last])[1..] == sent[1..] + [last];
      HandleOneMore(decoder, sink, sent[1..], last,
                    HandleEvent(decoder, sink, Meaning(sent[0].event), progress.session, progress.outcome));
    }
  }

  /** A stream of good records and one more event, cut in any way that leaves room. */
  ghost predicate Streams(
    decoder: Decoder, sent: seq<Sent>, records: seq<LogStreamEvent>, last: Sent, chunks: seq<Bytes>)
  {
    && CarryAll(decoder, sent, records) && AllRenderable(sent + [last])
    && AllRoomy(FramesOf(sent + [last]), |sent + [last]|) && Concat(chunks) == RenderAll(sent + [last])
  }

  lemma LastEventDecides(
    decoder: Decoder, sink: Sink, session: Session, sent: seq<Sent>, records: seq<LogStreamEvent>, last: Sent,
    chunks: seq<Bytes>)
    requires TakesEverything(sink) && Streams(decoder, sent, records, last, chunks)
    ensures Renderable(last.event)
    ensures Consume(decoder, sink, session, chunks, Eof)
         == HandleEvent(decoder, sink, Meaning(last.event), Taken(session, records), FIRST_OUTCOME)
  {
    hide Consume, HandleEvents, HandleEvent, FramesOf, RenderAll, Renderable;
    CarriedAreRenderable(decoder, sent, records);
    assert (sent + [last])[|sent|] == last;
    EventsReachTheConsumer(decoder, sink, session, sent + [last], chunks, Eof);
    HandleOneMore(decoder, sink, sent, last, Going(session, FIRST_OUTCOME));
    RecordsAreHandled(decoder, sink, sent, records, session, FIRST_OUTCOME);
  }

  /** The delay that is kept for a requested one: at least 100 ms, at most 5 s. */
  predicate DelayFor(wanted: nat, kept: nat) {
    && 100 <= kept <= 5_000
    && (wanted < 100 ==> kept == 100) && (wanted > 5_000 ==> kept == 5_000)
    && (100 <= wanted <= 5_000 ==> kept == wanted)
  }

  /** A control event of this kind, as version 1 of the contract has it. */
  predicate Controls(decoder: Decoder, sent: Sent, kind: Bytes, control: StreamControl) {
    && Renderable(sent.event) && sent.event.event == kind
    && decoder.control(DataOf(sent)) == Some(control) && control.schemaVersion == 1 && control.kind == kind
  }

  /** A reconnect event asks for a new connection after its delay, or after one second. */
  lemma ReconnectIsObeyed(
    decoder: Decoder, sink: Sink, session: Session, sent: seq<Sent>, records: seq<LogStreamEvent>, last: Sent,
    control: StreamControl, chunks: seq<Bytes>)
    requires TakesEverything(sink) && Streams(decoder, sent, records, last, chunks)
    requires Controls(decoder, last, Ascii("reconnect"), control)
    ensures var r := Consume(decoder, sink, session, chunks, Eof);
            && r.Going? && r.session == Taken(session, records) && r.outcome.reconnectRequested
            && DelayFor(match control.retryAfterMs case Some(ms) => ms case None => 1_000, r.outcome.retryAfterMs)
  {
    hide Consume, Streams, Renderable;
    Texts();
    LastEventDecides(decoder, sink, session, sent, records, last, chunks);
  }

  /** A ready event sets the delay if it names one. */
  lemma ReadyIsObeyed(
    decoder: Decoder, sink: Sink, session: Session, sent: seq<Sent>, records: seq<LogStreamEvent>, last: Sent,
    control: StreamControl, chunks: seq<Bytes>)
    requires TakesEverything(sink) && Streams(decoder, sent, records, last, chunks)
    requires Controls(decoder, last, Ascii("ready"), control)
    ensures var r := Consume(decoder, sink, session, chunks, Eof);
            && r.Going? && r.session == Taken(session, records) && !r.outcome.reconnectRequested
            && DelayFor(match last.event.retry case Some(ms) => ms case None => 1_000, r.outcome.retryAfterMs)
  {
    hide Consume, Streams, Renderable;
    Texts();
    LastEventDecides(decoder, sink, session, sent, records, last, chunks);
  }

  /** An error event ends the connection, to be retried exactly if it says so. */
  lemma ErrorIsObeyed(
    decoder: Decoder, sink: Sink, session: Session, sent: seq<Sent>, records: seq<LogStreamEvent>, last: Sent,
    control: StreamControl, chunks: seq<Bytes>)
    requires TakesEverything(sink) && Streams(decoder, sent, records, last, chunks)
    requires Controls(decoder, last, Ascii("error"), control)
    ensures Consume(decoder, sink, session, chunks, Eof)
         == Failed(Taken(session, records), StreamError(ServerError, control.retryable == Some(true)))
  {
    hide Consume, Streams, Renderable;
    Texts();
    LastEventDecides(decoder, sink, session, sent, records, last, chunks);
  }

  /** Why an event cannot be handled; the first reason that applies, or none. */
  ghost function Fault(decoder: Decoder, sent: Sent): Option<ErrorKind>
    requires Renderable(sent.event)
  {
    var name, id := sent.event.event, sent.event.id;
    if name == Ascii("log") then
      var record := decoder.log(DataOf(sent));
      if id.None? then Some(MissingId)
      else if !CursorReads(id.value) then Some(InvalidCursor)
      else if record.None? then Some(InvalidEvent)
      else if Carries(decoder, sent, record.value) then None else Some(MismatchedId)
    else if name == Ascii("ready") || name == Ascii("reconnect") || name == Ascii("error") then
      var control := decoder.control(DataOf(sent));
      if control.None? then Some(InvalidControl)
      else if control.value.schemaVersion != 1 then Some(UnsupportedSchema)
      else if control.value.kind != name then Some(WrongControl) else None
    else None
  }

  /** A faulty event ends the connection for good, after the records before it were taken. */
  lemma FaultsAreRefused(
    decoder: Decoder, sink: Sink, session: Session, sent: seq<Sent>, records: seq<LogStreamEvent>, last: Sent,
    chunks: seq<Bytes>)
    requires TakesEverything(sink) && Streams(decoder, sent, records, last, chunks)
    ensures Renderable(last.event)
    ensures Fault(decoder, last).Some? ==>
              Consume(decoder, sink, session, chunks, Eof)
              == Failed(Taken(session, records), StreamError(Fault(decoder, last).value, false))
  {
    hide Consume, Streams, Renderable, ValidCursor, CursorReads;
    Texts();
    LastEventDecides(decoder, sink, session, sent, records, last, chunks);
    if last.event.id.Some? {
      CursorReadsIff(last.event.id.value);
    }
  }

  /** Events of other names change nothing. */
  lemma OthersAreIgnored(
    decoder: Decoder, sink: Sink, session: Session, sent: seq<Sent>, records: seq<LogStreamEvent>, last: Sent,
    chunks: seq<Bytes>)
    requires TakesEverything(sink) && Streams(decoder, sent, records, last, chunks)
    requires last.event.event !in {Ascii("log"), Ascii("ready"), Ascii("reconnect"), Ascii("error")}
    ensures Consume(decoder, sink, session, chunks, Eof) == Going(Taken(session, records), Outcome(1_000, false))
  {
    hide Consume, Streams, Renderable;
    Texts();
    LastEventDecides(decoder, sink, session, sent, records, last, chunks);
  }

  /** A record the consumer refuses is not taken, and the connection ends with the consumer's verdict. */
  lemma RefusedIsNotTaken(
    decoder: Decoder, sink: Sink, session: Session, sent: Sent, record: LogStreamEvent, retryable: bool,
    chunks: seq<Bytes>)
    requires Carries(decoder, sent, record) && sink(session.offers) == Refused(retryable)
    requires AllRenderable([sent]) && AllRoomy(FramesOf([sent]), 1) && Concat(chunks) == RenderAll([sent])
    ensures var r := Consume(decoder, sink, session, chunks, Eof);
            && r.Failed? && r.error == StreamError(SinkFailed, retryable)
            && r.session == session.(offers := session.offers + 1)
  {
    hide Consume, FramesOf, RenderAll, Renderable, ValidCursor, CursorReads;
    Texts();
    CursorReadsIff(record.cursor);
    EventsReachTheConsumer(decoder, sink, session, [sent], chunks, Eof);
    assert [sent][1..] == [];
  }

  // ---- Over many connections --------------------------------------------------------------

  /** The attempt fails for good: a refusal, an unreadable one, or an error nobody may retry. */
  predicate Permanent(decoder: Decoder, sink: Sink, f: Follow, attempt: Attempt)
    requires f.Following?
  {
    match attempt
    case NoResponse => false
    case HttpFailure(retryable, errorBody) => errorBody.Some? || !retryable
    case WrongContentType => true
    case Body(chunks, end) =>
      var r := Consume(decoder, sink, f.session, chunks, end);
      r.Failed? && !r.error.retryable
  }

  /** Attempt k was made, was not refused for good, and was not the eighth without a checkpoint. */
  ghost predicate GoesOn(decoder: Decoder, sink: Sink, script: seq<Attempt>, k: nat)
    requires k < |script|
  {
    var f := FollowAll(decoder, sink, script[..k]);
    && f.Following? && !Permanent(decoder, sink, f, script[k])
    && SinceCheckpoint(decoder, sink, script[..k + 1]) < 8
  }

  /**
   The client keeps following exactly as long as no attempt fails for good and no eight attempts in a
   row pass without a reconnect checkpoint of the server.
   */
  lemma {:induction false} FollowsExactlyWhile(decoder: Decoder, sink: Sink, script: seq<Attempt>)
    ensures FollowAll(decoder, sink, script).Following?
       <==> forall k :: 0 <= k < |script| ==> GoesOn(decoder, sink, script, k)
  {
    hide Consume, Step, Permanent, Reconnects;
    if script == [] {
    } else {
      var n := |script| - 1;
      FollowsExactlyWhile(decoder, sink, script[..n]);
      forall k | 0 <= k < n
        ensures GoesOn(decoder, sink, script, k) <==> GoesOn(decoder, sink, script[..n], k)
      {
        assert script[..n][..k] == script[..k] && script[..n][..k + 1] == script[..k + 1];
      }
      assert script[..n + 1] == script;
      var f := FollowAll(decoder, sink, script[..n]);
      if f.Following? {
        RetriesAreBounded(decoder, sink, script[..n]);
        StepGoesOn(decoder, sink, f, script[n]);
        assert GoesOn(decoder, sink, script, n) <==> Step(decoder, sink, f, script[n]).Following?;
      } else {
        var k :| 0 <= k < n && !GoesOn(decoder, sink, script[..n], k);
        assert !GoesOn(decoder, sink, script, k);
      }
    }
  }

  lemma StepGoesOn(decoder: Decoder, sink: Sink, f: Follow, attempt: Attempt)
    requires f.Following? && f.failures < 8
    ensures Step(decoder, sink, f, attempt).Following?
       <==> !Permanent(decoder, sink, f, attempt) && (Reconnects(decoder, sink, f, attempt) || f.failures + 1 < 8)
  {
    hide Consume;
  }

  /** The delays of a client that never gets an answer; after the eighth attempt it gives up. */
  lemma {:induction false} SilenceBacksOff(decoder: Decoder, sink: Sink, script: seq<Attempt>)
    requires forall k :: 0 <= k < |script| ==> script[k] == NoResponse
    ensures |script| < 8 ==>
              FollowAll(decoder, sink, script)
              == Following(
                   Session([], 0, None), |script|,
                   [250, 500, 1_000, 2_000, 4_000, 5_000, 5_000, 5_000][|script|])
    ensures |script| == 8 ==>
              FollowAll(decoder, sink, script) == Stopped(Session([], 0, None), StreamError(Transport, true))
    decreases |script|
  {
    if script == [] {
    } else {
      SilenceBacksOff(decoder, sink, script[..|script| - 1]);
    }
  }

  /** A connection that carries the rest of the log, however it is cut and however it ends, completes it. */
  lemma FollowDelivers(
    decoder: Decoder, sink: Sink, script: seq<Attempt>, sent: seq<Sent>, rest: seq<LogStreamEvent>,
    chunks: seq<Bytes>, end: BodyEnd)
    requires TakesEverything(sink) && AllRenderable(sent) && CarryAll(decoder, sent, rest)
    requires AllRoomy(FramesOf(sent), |sent|) && Concat(chunks) == RenderAll(sent)
    requires FollowAll(decoder, sink, script).Following?
    ensures var before := FollowAll(decoder, sink, script).session;
            FollowAll(decoder, sink, script + [Body(chunks, end)]).session == Taken(before, rest)
  {
    hide HandleEvents, FramesOf, RenderAll, ReadChunks;
    var f, longer := FollowAll(decoder, sink, script), script + [Body(chunks, end)];
    EventsReachTheConsumer(decoder, sink, f.session, sent, chunks, end);
    RecordsAreHandled(decoder, sink, sent, rest, f.session, FIRST_OUTCOME);
    assert longer[..|longer| - 1] == script;
  }
}
