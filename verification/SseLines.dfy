/**
 Frames as any server may write them: comments, names without a value, values with or without the space
 after the colon, fields nobody knows, and lines in any order.
 */
module SseLines {
  import opened Wrappers
  import opened ByteStrings
  import opened SseFraming
  import opened SseFields
  import Utf8

  datatype WrittenLine =
    | Comment(text: Bytes)
    | NameOnly(field: Bytes)
    | Pair(field: Bytes, value: Bytes, spaced: bool)

  function Written(line: WrittenLine): Bytes {
    match line
    case Comment(text) => Ascii(":") + text
    case NameOnly(field) => field
    case Pair(field, value, spaced) => field + (if spaced then Ascii(": ") else Ascii(":")) + value
  }

  /** What a line can be written as: a name without a colon, and no space that would be taken off. */
  predicate Writable(line: WrittenLine) {
    match line
    case Comment(text) => OneLine(text)
    case NameOnly(field) => field != [] && OneLine(field) && ':' as int !in field
    case Pair(field, value, spaced) =>
      && field != [] && OneLine(field) && ':' as int !in field && OneLine(value)
      && (value != [] && value[0] == ' ' as int ==> spaced)
  }

  predicate AllWritable(lines: seq<WrittenLine>) {
    forall i :: 0 <= i < |lines| ==> Writable(lines[i])
  }

  function Texts(lines: seq<WrittenLine>): (r: seq<Bytes>)
    ensures |r| == |lines| && forall i :: 0 <= i < |r| ==> r[i] == Written(lines[i])
  {
    seq(|lines|, i requires 0 <= i < |lines| => Written(lines[i]))
  }

  // ---- What the lines mean ----------------------------------------------------------------

  /** A name and its value, as section 9.2.6 of the HTML standard reads them. */
  function ReadPair(fields: Fields, name: Bytes, value: Bytes): Fields {
    if name == Ascii("event") then fields.(event := value)
    else if name == Ascii("data") then fields.(data := fields.data + [value])
    else if name == Ascii("id") && 0 !in value then fields.(id := Some(value))
    else if name == Ascii("retry") then fields.(retry := ParseU64(value))
    else fields
  }

  function ReadLine(fields: Fields, line: WrittenLine): Fields {
    match line
    case Comment(_) => fields
    case NameOnly(field) => ReadPair(fields, field, [])
    case Pair(field, value, _) => ReadPair(fields, field, value)
  }

  function ReadLines(fields: Fields, lines: seq<WrittenLine>): Fields
    decreases |lines|
  {
    if lines == [] then fields else ReadLines(ReadLine(fields, lines[0]), lines[1..])
  }

  lemma Names()
    ensures EVENT == Ascii("event") && DATA == Ascii("data") && ID == Ascii("id") && RETRY == Ascii("retry")
    ensures EVENT != DATA && EVENT != ID && EVENT != RETRY && DATA != ID && DATA != RETRY && ID != RETRY
    ensures MESSAGE == Ascii("message")
  {
    assert |EVENT| == 5 && |DATA| == 4 && |ID| == 2 && |RETRY| == 5 && EVENT[0] == 101 && RETRY[0] == 114;
  }

  lemma LineReads(fields: Fields, line: WrittenLine)
    requires Writable(line)
    ensures ApplyLine(fields, Written(line)) == ReadLine(fields, line)
  {
    hide ParseU64, IndexOf, OneLine, Ascii;
    Names();
    Colons();
    var text := Written(line);
    match line {
      case Comment(_) =>
      case NameOnly(field) =>
        assert IndexOf(text, COLON) == None;
      case Pair(field, value, spaced) =>
        assert text[..|field|] == field && text[|field|] == COLON;
        IndexOfIs(text, COLON, |field|);
        assert text[|field| + 1..] == if spaced then [SPACE] + value else value;
    }
  }

  lemma Colons()
    ensures Ascii(":") == [COLON] && Ascii(": ") == [COLON, SPACE]
  {
  }

  lemma WrittenIsTidy(line: WrittenLine)
    requires Writable(line)
    ensures TidyLine(Written(line))
  {
    hide Utf8.Valid, Ascii;
    Colons();
    Utf8.AsciiIsValid([COLON]);
    Utf8.AsciiIsValid([COLON, SPACE]);
    match line {
      case Comment(text) =>
        Utf8.ConcatenationIsValid([COLON], text);
      case NameOnly(_) =>
      case Pair(field, value, spaced) =>
        var colon := if spaced then [COLON, SPACE] else [COLON];
        Utf8.ConcatenationIsValid(field, colon);
        Utf8.ConcatenationIsValid(field + colon, value);
    }
  }

  lemma {:induction false} LinesRead(fields: Fields, lines: seq<WrittenLine>)
    requires AllWritable(lines)
    ensures ApplyTrimmed(fields, Texts(lines)) == ReadLines(fields, lines)
    decreases |lines|
  {
    hide Written, ApplyLine, ReadLine, Writable;
    if lines == [] {
    } else {
      LineReads(fields, lines[0]);
      assert Texts(lines)[1..] == Texts(lines[1..]);
      LinesRead(ReadLine(fields, lines[0]), lines[1..]);
    }
  }

  /**
   Whatever lines a frame is written with, and with either line ending, it parses to what they mean: an
   event needs data, is called "message" unless it has a name, and lines nobody knows change nothing.
   */
  lemma WrittenFrameParses(lines: seq<WrittenLine>, ending: LineEnding)
    requires AllWritable(lines) && lines != []
    ensures var read := ReadLines(Fields(Ascii("message"), None, [], None), lines);
            ParseFrame(Join(Texts(lines), Eol(ending)))
            == Ok(if read.data == [] then None
                  else Some(ParsedSse(read.event, read.id, Join(read.data, [LF]), read.retry)))
  {
    hide Written, ApplyLine, ReadLine, Writable, Ascii, Lines, Tidy, TrimCr;
    Names();
    var texts := Texts(lines);
    forall i | 0 <= i < |texts|
      ensures TidyLine(texts[i])
    {
      WrittenIsTidy(lines[i]);
    }
    JoinIsTidy(texts, ending);
    LinesOfJoin(texts, ending);
    ApplyIsLeftToRight(Lines(Join(texts, Eol(ending))), texts);
    LinesRead(NO_FIELDS, lines);
  }

  // ---- Numbers ----------------------------------------------------------------------------

  function Zeros(k: nat): (r: Bytes)
    ensures |r| == k
  {
    seq(k, i => '0' as int)
  }

  lemma {:induction false} ZerosAddNothing(k: nat, s: Bytes)
    requires Digits(s)
    ensures Digits(Zeros(k) + s) && Decimal(Zeros(k) + s) == Decimal(s)
    decreases |s|, k
  {
    var text := Zeros(k) + s;
    if s != [] {
      ZerosAddNothing(k, s[..|s| - 1]);
      assert text[..|text| - 1] == Zeros(k) + s[..|s| - 1];
    } else if k > 0 {
      ZerosAddNothing(k - 1, []);
      assert text[..|text| - 1] == Zeros(k - 1) + [] && text == Zeros(k);
    } else {
      assert text == [];
    }
  }

  /** A retry time is read from decimal digits, with or without a plus sign and zeros in front. */
  lemma NumbersRead(n: nat, k: nat)
    ensures var value := if n <= 0xFFFF_FFFF_FFFF_FFFF then Some(n) else None;
            && ParseU64(Zeros(k) + RenderDecimal(n)) == value
            && ParseU64(Ascii("+") + Zeros(k) + RenderDecimal(n)) == value
  {
    hide Decimal, RenderDecimal;
    var digits := Zeros(k) + RenderDecimal(n);
    DecimalRoundTrip(n);
    ZerosAddNothing(k, RenderDecimal(n));
    assert Ascii("+") == [43];
    var signed := Ascii("+") + Zeros(k) + RenderDecimal(n);
    assert signed[1..] == digits && signed[0] == 43;
    assert digits[0] != 43;
  }

  /** Nothing else is a number: one byte that is no digit, apart from a plus sign in front, is enough. */
  lemma OthersAreNoNumbers(text: Bytes, i: nat)
    requires text == [] || text == Ascii("+") || (i < |text| && (text[i] < '0' as int || text[i] > '9' as int)
                                                && (i > 0 || text[0] != '+' as int))
    ensures ParseU64(text) == None
  {
    hide Decimal;
    if text != [] && text != Ascii("+") {
      var digits := if text[0] == 43 then text[1..] else text;
      assert digits[if text[0] == 43 then i - 1 else i] == text[i];
    } else {
      assert Ascii("+") == [43];
    }
  }
}
