/**
 The fields of one server-sent-event frame (HTML Living Standard, sections 9.2.5 and 9.2.6), and
 the rendering a conforming server uses.
 */
module SseFields {
  import opened Wrappers
  import opened ByteStrings
  import opened SseFraming
  import Utf8

  const COLON: Byte := 58
  const SPACE: Byte := 32
  const NUL: Byte := 0
  const EVENT: Bytes := [101, 118, 101, 110, 116]
  const ID: Bytes := [105, 100]
  const DATA: Bytes := [100, 97, 116, 97]
  const RETRY: Bytes := [114, 101, 116, 114, 121]
  const MESSAGE: Bytes := [109, 101, 115, 115, 97, 103, 101]

  datatype ParsedSse = ParsedSse(event: Bytes, id: Option<Bytes>, data: Bytes, retry: Option<U64>)

  datatype ParseError = NotUtf8

  // ---- Lines ------------------------------------------------------------------------------

  function IndexOf(s: Bytes, b: Byte): (r: Option<nat>)
    ensures r.Some? ==> r.value < |s| && s[r.value] == b && b !in s[..r.value]
    ensures r.None? ==> b !in s
  {
    if s == [] then None
    else if s[0] == b then Some(0)
    else
      match IndexOf(s[1..], b)
      case None => None
      case Some(i) => assert s[..i + 1] == [s[0]] + s[1..][..i]; Some(i + 1)
  }

  lemma {:induction false} IndexOfIs(s: Bytes, b: Byte, i: nat)
    requires i < |s| && s[i] == b && b !in s[..i]
    ensures IndexOf(s, b) == Some(i)
  {
    if i == 0 {
    } else {
      assert s[..i] == [s[0]] + s[1..][..i - 1];
      IndexOfIs(s[1..], b, i - 1);
    }
  }

  /** The lines of a text. A text ending in a line feed has no empty last line. */
  function Lines(text: Bytes): seq<Bytes>
    decreases |text|
  {
    if text == [] then []
    else
      match IndexOf(text, LF)
      case None => [text]
      case Some(i) => [text[..i]] + Lines(text[i + 1..])
  }

  function TrimCr(line: Bytes): Bytes {
    if line != [] && line[|line| - 1] == CR then TrimCr(line[..|line| - 1]) else line
  }

  // ---- Numbers ----------------------------------------------------------------------------

  predicate Digit(b: Byte) {
    48 <= b <= 57
  }

  predicate Digits(s: Bytes) {
    forall i :: 0 <= i < |s| ==> Digit(s[i])
  }

  function Decimal(s: Bytes): (n: nat)
    requires Digits(s)
  {
    if s == [] then 0 else 10 * Decimal(s[..|s| - 1]) + (s[|s| - 1] - 48)
  }

  /** Parsing a u64: an optional plus sign, at least one digit, no overflow. */
  function ParseU64(s: Bytes): Option<U64> {
    var digits := if s != [] && s[0] == 43 then s[1..] else s;
    if digits == [] || !Digits(digits) || Decimal(digits) >= 0x1_0000_0000_0000_0000 then None
    else Some(Decimal(digits))
  }

  function RenderDecimal(n: nat): (r: Bytes)
    ensures r != [] && Digits(r)
  {
    if n < 10 then [48 + n] else RenderDecimal(n / 10) + [48 + n % 10]
  }

  lemma {:induction false} DecimalRoundTrip(n: nat)
    ensures Decimal(RenderDecimal(n)) == n
  {
    if n < 10 {
    } else {
      DecimalRoundTrip(n / 10);
      assert RenderDecimal(n)[..|RenderDecimal(n)| - 1] == RenderDecimal(n / 10);
    }
  }

  // ---- Parsing one frame ------------------------------------------------------------------

  datatype Fields = Fields(event: Bytes, id: Option<Bytes>, data: seq<Bytes>, retry: Option<U64>)

  const NO_FIELDS: Fields := Fields(MESSAGE, None, [], None)

  function FieldName(line: Bytes): Bytes {
    match IndexOf(line, COLON)
    case None => line
    case Some(i) => line[..i]
  }

  function FieldValue(line: Bytes): Bytes {
    match IndexOf(line, COLON)
    case None => []
    case Some(i) =>
      var value := line[i + 1..];
      if value != [] && value[0] == SPACE then value[1..] else value
  }

  /** One line of a frame; a line that starts with a colon is a comment. */
  function ApplyLine(fields: Fields, line: Bytes): Fields {
    if line != [] && line[0] == COLON then fields
    else
      var value := FieldValue(line);
      if FieldName(line) == EVENT then fields.(event := value)
      else if FieldName(line) == ID && NUL !in value then fields.(id := Some(value))
      else if FieldName(line) == DATA then fields.(data := fields.data + [value])
      else if FieldName(line) == RETRY then fields.(retry := ParseU64(value))
      else fields
  }

  function ApplyLines(lines: seq<Bytes>): Fields {
    if lines == [] then NO_FIELDS
    else ApplyLine(ApplyLines(lines[..|lines| - 1]), TrimCr(lines[|lines| - 1]))
  }

  function Join(lines: seq<Bytes>, separator: Bytes): Bytes
    requires lines != []
  {
    if |lines| == 1 then lines[0] else lines[0] + separator + Join(lines[1..], separator)
  }

  function ParseFrame(frame: Bytes): Result<Option<ParsedSse>, ParseError> {
    if !Utf8.Valid(frame) then Err(NotUtf8)
    else
      var fields := ApplyLines(Lines(frame));
      if fields.data == [] then Ok(None)
      else Ok(Some(ParsedSse(fields.event, fields.id, Join(fields.data, [LF]), fields.retry)))
  }

  /** The source's loop over the lines. */
  method ParseSseFrame(frame: Bytes) returns (r: Result<Option<ParsedSse>, ParseError>)
    ensures r == ParseFrame(frame)
  {
    if !Utf8.Valid(frame) {
      return Err(NotUtf8);
    }
    var event := MESSAGE;
    var id: Option<Bytes> := None;
    var data: seq<Bytes> := [];
    var retry: Option<U64> := None;
    var lines := Lines(frame);
    for k := 0 to |lines|
      invariant Fields(event, id, data, retry) == ApplyLines(lines[..k])
    {
      assert lines[..k + 1][..k] == lines[..k];
      var line := TrimCr(lines[k]);
      if line != [] && line[0] == COLON {
        continue;
      }
      var field, value := FieldName(line), FieldValue(line);
      if field == EVENT {
        event := value;
      } else if field == ID && NUL !in value {
        id := Some(value);
      } else if field == DATA {
        data := data + [value];
      } else if field == RETRY {
        retry := ParseU64(value);
      }
    }
    assert lines[..|lines|] == lines;
    if data == [] {
      return Ok(None);
    }
    return Ok(Some(ParsedSse(event, id, Join(data, [LF]), retry)));
  }

  // ---- Rendering --------------------------------------------------------------------------

  /** An event as a server writes it: data is given line by line. */
  datatype ServerEvent = ServerEvent(event: Bytes, id: Option<Bytes>, data: seq<Bytes>, retry: Option<U64>)

  datatype LineEnding = UseLf | UseCrLf

  function Eol(ending: LineEnding): Bytes {
    if ending.UseLf? then [LF] else [CR, LF]
  }

  /** A field value that fits on one line. */
  predicate OneLine(s: Bytes) {
    LF !in s && CR !in s && Utf8.Valid(s)
  }

  predicate Renderable(e: ServerEvent) {
    && OneLine(e.event)
    && (e.id.Some? ==> OneLine(e.id.value) && NUL !in e.id.value)
    && e.data != []
    && forall i :: 0 <= i < |e.data| ==> OneLine(e.data[i])
  }

  function Line(field: Bytes, value: Bytes): Bytes {
    field + [COLON, SPACE] + value
  }

  function DataLines(data: seq<Bytes>): (r: seq<Bytes>)
    ensures |r| == |data|
    ensures forall i :: 0 <= i < |r| ==> r[i] == Line(DATA, data[i])
  {
    seq(|data|, i requires 0 <= i < |data| => Line(DATA, data[i]))
  }

  function EventLines(e: ServerEvent): (r: seq<Bytes>)
    requires Renderable(e)
    ensures r != []
  {
    [Line(EVENT, e.event)]
    + (if e.id.Some? then [Line(ID, e.id.value)] else [])
    + (if e.retry.Some? then [Line(RETRY, RenderDecimal(e.retry.value))] else [])
    + DataLines(e.data)
  }

  function FrameOf(e: ServerEvent, ending: LineEnding): Bytes
    requires Renderable(e)
  {
    Join(EventLines(e), Eol(ending))
  }

  function Render(e: ServerEvent, ending: LineEnding): Bytes
    requires Renderable(e)
  {
    FrameOf(e, ending) + Eol(ending) + Eol(ending)
  }

  /** What a reader should make of an event. */
  function Meaning(e: ServerEvent): ParsedSse
    requires Renderable(e)
  {
    ParsedSse(e.event, e.id, Join(e.data, [LF]), e.retry)
  }

  // ---- Rendered lines ---------------------------------------------------------------------

  predicate Ordinary(b: Byte) {
    b != LF && b != CR
  }

  /** A nonempty line of ordinary bytes that is valid UTF-8. */
  predicate TidyLine(line: Bytes) {
    line != [] && LF !in line && CR !in line && Utf8.Valid(line)
  }

  lemma LineIsTidy(field: Bytes, value: Bytes)
    requires field in {EVENT, ID, DATA, RETRY} && OneLine(value)
    ensures TidyLine(Line(field, value))
    ensures Line(field, value)[0] != COLON
  {
    hide Utf8.Valid;
    Utf8.AsciiIsValid(field + [COLON, SPACE]);
    Utf8.ConcatenationIsValid(field + [COLON, SPACE], value);
  }

  lemma LineSplits(field: Bytes, value: Bytes)
    requires COLON !in field
    ensures FieldName(Line(field, value)) == field
    ensures FieldValue(Line(field, value)) == value
  {
    var line := Line(field, value);
    assert line[..|field|] == field;
    IndexOfIs(line, COLON, |field|);
    assert line[|field| + 1..] == [SPACE] + value;
  }

  lemma DigitsAreOneLine(s: Bytes)
    requires Digits(s)
    ensures OneLine(s)
  {
    Utf8.AsciiIsValid(s);
  }

  predicate TidyLines(lines: seq<Bytes>) {
    lines != [] && forall i :: 0 <= i < |lines| ==> TidyLine(lines[i])
  }

  lemma EventLinesAreTidy(e: ServerEvent)
    requires Renderable(e)
    ensures TidyLines(EventLines(e))
  {
    LineIsTidy(EVENT, e.event);
    if e.id.Some? {
      LineIsTidy(ID, e.id.value);
    }
    if e.retry.Some? {
      DigitsAreOneLine(RenderDecimal(e.retry.value));
      LineIsTidy(RETRY, RenderDecimal(e.retry.value));
    }
    forall i | 0 <= i < |e.data|
      ensures TidyLine(Line(DATA, e.data[i]))
    {
      LineIsTidy(DATA, e.data[i]);
    }
  }

  // ---- No blank line inside a rendered frame ----------------------------------------------

  /** Line ends inside s are each followed by an ordinary byte of s. */
  predicate Tidy(s: Bytes) {
    && s != [] && Ordinary(s[0]) && Ordinary(s[|s| - 1])
    && (forall i :: 0 <= i < |s| && s[i] == LF ==> i + 1 < |s| && Ordinary(s[i + 1]))
  }

  lemma {:induction false} JoinIsTidy(lines: seq<Bytes>, ending: LineEnding)
    requires TidyLines(lines)
    ensures Tidy(Join(lines, Eol(ending)))
    ensures Utf8.Valid(Join(lines, Eol(ending)))
  {
    var first := lines[0];
    assert forall i :: 0 <= i < |first| ==> first[i] in first;
    if |lines| <= 1 {
    } else {
      var rest := Join(lines[1..], Eol(ending));
      JoinIsTidy(lines[1..], ending);
      var joined := first + Eol(ending) + rest;
      forall i | 0 <= i < |joined| && joined[i] == LF
        ensures i + 1 < |joined| && Ordinary(joined[i + 1])
      {
        var skip := |first| + |Eol(ending)|;
        if i >= skip {
          assert joined[i] == rest[i - skip] && joined[i + 1] == rest[i - skip + 1];
        }
      }
      Utf8.AsciiIsValid(Eol(ending));
      Utf8.ConcatenationIsValid(first, Eol(ending));
      Utf8.ConcatenationIsValid(first + Eol(ending), rest);
    }
  }

  lemma BlankLineBytes(s: Bytes, i: nat)
    ensures At(s, i, LF_LF) ==> s[i] == LF && s[i + 1] == LF
    ensures At(s, i, CRLF_CRLF) ==> s[i] == CR && s[i + 1] == LF && s[i + 2] == CR
  {
    if At(s, i, CRLF_CRLF) {
      assert s[i + 1] == s[i..i + 4][1] && s[i + 2] == s[i..i + 4][2];
    }
    if At(s, i, LF_LF) {
      assert s[i + 1] == s[i..i + 2][1];
    }
  }

  lemma TidyBoundary(frame: Bytes, ending: LineEnding, more: Bytes)
    requires Tidy(frame)
    ensures FrameBoundary(frame + Eol(ending) + Eol(ending) + more) == Some(Boundary(|frame|, 2 * |Eol(ending)|))
  {
    var s := frame + Eol(ending) + Eol(ending) + more;
    var n := |frame|;
    assert forall i :: 0 <= i < n ==> s[i] == frame[i];
    forall i | 0 <= i < n
      ensures DelimiterAt(s, i) == 0
    {
      BlankLineBytes(s, i);
    }
    assert s[n..n + 2 * |Eol(ending)|] == Eol(ending) + Eol(ending);
    if ending.UseCrLf? {
      assert s[n] == CR;
      assert s[n..n + 2][0] == CR;
      assert At(s, n, CRLF_CRLF);
    } else {
      assert At(s, n, LF_LF);
    }
    BoundaryIsFirst(s, Boundary(n, 2 * |Eol(ending)|));
  }

  // ---- Rendering and parsing are inverse --------------------------------------------------

  lemma LinesStep(head: Bytes, rest: Bytes)
    requires LF !in head && rest != []
    ensures Lines(head + [LF] + rest) == [head] + Lines(rest)
  {
    var text := head + [LF] + rest;
    assert text[..|head|] == head;
    IndexOfIs(text, LF, |head|);
    assert text[|head| + 1..] == rest;
  }

  lemma OneLineText(line: Bytes)
    requires line != [] && LF !in line
    ensures Lines(line) == [line]
  {
  }

  lemma TrimIsFirst(first: Bytes, ending: LineEnding)
    requires first != [] && CR !in first
    ensures TrimCr(if ending.UseLf? then first else first + [CR]) == first && TrimCr(first) == first
  {
    assert first[|first| - 1] in first;
    assert (first + [CR])[..|first|] == first;
  }

  lemma {:induction false} LinesOfJoin(lines: seq<Bytes>, ending: LineEnding)
    requires TidyLines(lines)
    ensures |Lines(Join(lines, Eol(ending)))| == |lines|
    ensures forall i :: 0 <= i < |lines| ==> TrimCr(Lines(Join(lines, Eol(ending)))[i]) == lines[i]
  {
    hide Utf8.Valid, Lines, IndexOf, TrimCr;
    var first := lines[0];
    var text := Join(lines, Eol(ending));
    TrimIsFirst(first, ending);
    if |lines| == 1 {
      OneLineText(first);
    } else {
      var rest := Join(lines[1..], Eol(ending));
      var head := if ending.UseLf? then first else first + [CR];
      assert text == head + [LF] + rest;
      LinesStep(head, rest);
      LinesOfJoin(lines[1..], ending);
      forall i | 0 <= i < |lines|
        ensures TrimCr(Lines(text)[i]) == lines[i]
      {
        if i > 0 {
          assert Lines(text)[i] == Lines(rest)[i - 1];
          assert lines[i] == lines[1..][i - 1];
        }
      }
    }
  }

  function ApplyTrimmed(fields: Fields, lines: seq<Bytes>): Fields
    decreases |lines|
  {
    if lines == [] then fields else ApplyTrimmed(ApplyLine(fields, lines[0]), lines[1..])
  }

  lemma {:induction false} ApplyTrimmedAppends(fields: Fields, lines: seq<Bytes>, line: Bytes)
    ensures ApplyTrimmed(fields, lines + [line]) == ApplyLine(ApplyTrimmed(fields, lines), line)
    decreases |lines|
  {
    if lines == [] {
      assert ([line])[1..] == [];
    } else {
      assert (lines + [line])[1..] == lines[1..] + [line];
      ApplyTrimmedAppends(ApplyLine(fields, lines[0]), lines[1..], line);
    }
  }

  lemma {:induction false} ApplyIsLeftToRight(raw: seq<Bytes>, lines: seq<Bytes>)
    requires |raw| == |lines|
    requires forall i :: 0 <= i < |raw| ==> TrimCr(raw[i]) == lines[i]
    ensures ApplyLines(raw) == ApplyTrimmed(NO_FIELDS, lines)
  {
    if raw == [] {
    } else {
      var n := |raw| - 1;
      ApplyIsLeftToRight(raw[..n], lines[..n]);
      ApplyTrimmedAppends(NO_FIELDS, lines[..n], lines[n]);
      assert lines == lines[..n] + [lines[n]];
    }
  }

  lemma {:induction false} ApplyDataLines(fields: Fields, data: seq<Bytes>)
    requires forall i :: 0 <= i < |data| ==> OneLine(data[i])
    ensures ApplyTrimmed(fields, DataLines(data)) == fields.(data := fields.data + data)
    decreases |data|
  {
    hide Utf8.Valid, ApplyTrimmed, OneLine, DataLines, ParseU64, Line;
    if data == [] {
      ApplyNothing(fields);
      assert fields.data + data == fields.data;
    } else {
      DataLinesUnfold(data);
      ApplyHeader(fields, DATA, data[0], DataLines(data[1..]));
      ApplyDataLines(fields.(data := fields.data + [data[0]]), data[1..]);
      assert fields.data + [data[0]] + data[1..] == fields.data + data;
    }
  }

  lemma DataLinesUnfold(data: seq<Bytes>)
    requires data != []
    ensures DataLines(data) == [Line(DATA, data[0])] + DataLines(data[1..])
  {
    hide Line;
  }

  lemma ApplyNothing(fields: Fields)
    ensures ApplyTrimmed(fields, []) == fields
  {
  }

  lemma ApplyHeader(fields: Fields, field: Bytes, value: Bytes, rest: seq<Bytes>)
    requires field in {EVENT, ID, DATA, RETRY} && OneLine(value)
    ensures ApplyTrimmed(fields, [Line(field, value)] + rest) == ApplyTrimmed(WithField(fields, field, value), rest)
  {
    hide Utf8.Valid, IndexOf;
    LineIsTidy(field, value);
    LineSplits(field, value);
    assert ([Line(field, value)] + rest)[1..] == rest;
    assert ApplyLine(fields, Line(field, value)) == WithField(fields, field, value);
  }

  function WithField(fields: Fields, field: Bytes, value: Bytes): Fields
    requires field in {EVENT, ID, DATA, RETRY}
  {
    if field == EVENT then fields.(event := value)
    else if field == DATA then fields.(data := fields.data + [value])
    else if field == ID then if NUL in value then fields else fields.(id := Some(value))
    else fields.(retry := ParseU64(value))
  }

  lemma ApplyRetry(fields: Fields, retry: U64, rest: seq<Bytes>)
    ensures ApplyTrimmed(fields, [Line(RETRY, RenderDecimal(retry))] + rest)
         == ApplyTrimmed(fields.(retry := Some(retry)), rest)
  {
    hide ApplyTrimmed, Utf8.Valid;
    var text := RenderDecimal(retry);
    DigitsAreOneLine(text);
    DecimalRoundTrip(retry);
    assert Digit(text[0]);
    ApplyHeader(fields, RETRY, text, rest);
  }

  lemma ApplyEventLines(e: ServerEvent)
    requires Renderable(e)
    ensures ApplyTrimmed(NO_FIELDS, EventLines(e)) == Fields(e.event, e.id, e.data, e.retry)
  {
    hide ApplyTrimmed, Utf8.Valid, RenderDecimal;
    var data := DataLines(e.data);
    var retry := if e.retry.Some? then [Line(RETRY, RenderDecimal(e.retry.value))] else [];
    var id := if e.id.Some? then [Line(ID, e.id.value)] else [];
    var named := NO_FIELDS.(event := e.event);
    var identified := named.(id := e.id);
    assert EventLines(e) == [Line(EVENT, e.event)] + (id + (retry + data));
    ApplyHeader(NO_FIELDS, EVENT, e.event, id + (retry + data));
    assert ApplyTrimmed(named, id + (retry + data)) == ApplyTrimmed(identified, retry + data) by {
      if e.id.Some? {
        ApplyHeader(named, ID, e.id.value, retry + data);
      } else {
        assert id + (retry + data) == retry + data;
      }
    }
    assert ApplyTrimmed(identified, retry + data) == ApplyTrimmed(identified.(retry := e.retry), data) by {
      if e.retry.Some? {
        ApplyRetry(identified, e.retry.value, data);
      } else {
        assert retry + data == data;
      }
    }
    ApplyDataLines(identified.(retry := e.retry), e.data);
    assert [] + e.data == e.data;
  }

  /** Parsing a rendered frame gives the event back, with either line ending. */
  lemma ParseInvertsRender(e: ServerEvent, ending: LineEnding)
    requires Renderable(e)
    ensures ParseFrame(FrameOf(e, ending)) == Ok(Some(Meaning(e)))
  {
    EventLinesAreTidy(e);
    JoinIsTidy(EventLines(e), ending);
    LinesOfJoin(EventLines(e), ending);
    ApplyIsLeftToRight(Lines(FrameOf(e, ending)), EventLines(e));
    ApplyEventLines(e);
  }

  // ---- A whole stream of events -----------------------------------------------------------

  datatype Sent = Sent(event: ServerEvent, ending: LineEnding)

  predicate AllRenderable(sent: seq<Sent>) {
    forall i :: 0 <= i < |sent| ==> Renderable(sent[i].event)
  }

  function RenderAll(sent: seq<Sent>): Bytes
    requires AllRenderable(sent)
  {
    if sent == [] then [] else Render(sent[0].event, sent[0].ending) + RenderAll(sent[1..])
  }

  function FramesOf(sent: seq<Sent>): (r: seq<Frame>)
    requires AllRenderable(sent)
    ensures |r| == |sent|
  {
    if sent == [] then []
    else [Frame(FrameOf(sent[0].event, sent[0].ending), 2 * |Eol(sent[0].ending)|)] + FramesOf(sent[1..])
  }

  lemma {:induction false} SplitInvertsRender(sent: seq<Sent>)
    requires AllRenderable(sent)
    ensures Split(RenderAll(sent)) == Framed(FramesOf(sent), [])
  {
    hide Split, FrameBoundary, Tidy, TidyLines, Renderable, EventLines, Utf8.Valid;
    if sent == [] {
      SplitStops([]);
    } else {
      var Sent(e, ending) := sent[0];
      var frame, rest := FrameOf(e, ending), RenderAll(sent[1..]);
      EventLinesAreTidy(e);
      JoinIsTidy(EventLines(e), ending);
      TidyBoundary(frame, ending, rest);
      var b := Boundary(|frame|, 2 * |Eol(ending)|);
      var stream := frame + Eol(ending) + Eol(ending) + rest;
      assert RenderAll(sent) == stream;
      SplitUnfolds(stream, b);
      assert stream[..|frame|] == frame;
      assert stream[b.end + b.delimiter..] == rest;
      SplitInvertsRender(sent[1..]);
    }
  }

  /**
   The round trip: events written with either line ending come back exactly, whatever chunks the
   network delivers them in. Roomy admits every frame of at most 512 KiB - 3 bytes.
   */
  lemma EventsSurviveAnyChunking(sent: seq<Sent>, chunks: seq<Bytes>)
    requires AllRenderable(sent)
    requires AllRoomy(FramesOf(sent), |sent|)
    requires Concat(chunks) == RenderAll(sent)
    ensures Accepted(chunks)
    ensures FeedAll(chunks).buffer == []
    ensures |FeedAll(chunks).delivered| == |sent|
    ensures forall i :: 0 <= i < |sent|
              ==> ParseFrame(FeedAll(chunks).delivered[i].bytes) == Ok(Some(Meaning(sent[i].event)))
  {
    SplitInvertsRender(sent);
    RoomyIsAccepted(chunks);
    FeedingAgrees(chunks);
    forall i | 0 <= i < |sent|
      ensures ParseFrame(FeedAll(chunks).delivered[i].bytes) == Ok(Some(Meaning(sent[i].event)))
    {
      FrameAt(sent, i);
      ParseInvertsRender(sent[i].event, sent[i].ending);
    }
  }

  lemma {:induction false} FrameAt(sent: seq<Sent>, i: nat)
    requires AllRenderable(sent) && i < |sent|
    ensures FramesOf(sent)[i].bytes == FrameOf(sent[i].event, sent[i].ending)
  {
    if i == 0 {
    } else {
      FrameAt(sent[1..], i - 1);
    }
  }
}
