/**
 The framer against the event-stream format of the HTML standard (section 9.2.6), where a line ends with
 "\r\n", "\n" or "\r" and endings may be mixed. The two agree on a stream exactly when each blank line
 that the standard sees is written in one of the two ways the framer looks for.
 */
module SseStandard {
  import opened Wrappers
  import opened ByteStrings
  import opened SseFraming

  /** How long the line ending at index i is; 0 when none starts there. */
  function EndingAt(s: Bytes, i: int): nat {
    if !(0 <= i < |s|) then 0
    else if s[i] == CR then if i + 1 < |s| && s[i + 1] == LF then 2 else 1
    else if s[i] == LF then 1 else 0
  }

  /** Index i is the second byte of a "\r\n", where no ending of its own starts. */
  predicate InsidePair(s: Bytes, i: int) {
    0 < i < |s| && s[i] == LF && s[i - 1] == CR
  }

  /** How long a line ending and the blank line after it are, if both start at index i; otherwise 0. */
  function BlankAt(s: Bytes, i: int): nat {
    var first := EndingAt(s, i);
    var second := EndingAt(s, i + first);
    if first == 0 || second == 0 || InsidePair(s, i) then 0 else first + second
  }

  /** The first blank line of the standard. */
  function StandardFrom(s: Bytes, from: nat): (r: Option<Boundary>)
    ensures r.Some? ==> from <= r.value.end && BlankAt(s, r.value.end) == r.value.delimiter > 0
    ensures r.Some? ==> r.value.end + r.value.delimiter <= |s|
    ensures r.Some? ==> forall i :: from <= i < r.value.end ==> BlankAt(s, i) == 0
    ensures r.None? ==> forall i :: from <= i ==> BlankAt(s, i) == 0
    decreases |s| - from
  {
    if from >= |s| then None
    else if BlankAt(s, from) > 0 then Some(Boundary(from, BlankAt(s, from)))
    else StandardFrom(s, from + 1)
  }

  function StandardSplit(stream: Bytes): Framed
    decreases |stream|
  {
    match StandardFrom(stream, 0)
    case None => Framed([], stream)
    case Some(b) =>
      var tail := StandardSplit(stream[b.end + b.delimiter..]);
      Framed([Frame(stream[..b.end], b.delimiter)] + tail.frames, tail.rest)
  }

  /** The blank line is "\n\n" or "\r\n\r\n". */
  predicate WrittenAsExpected(s: Bytes, b: Boundary) {
    DelimiterAt(s, b.end) == b.delimiter
  }

  predicate BlankLinesAsExpected(stream: Bytes)
    decreases |stream|
  {
    match StandardFrom(stream, 0)
    case None => true
    case Some(b) => WrittenAsExpected(stream, b) && BlankLinesAsExpected(stream[b.end + b.delimiter..])
  }

  /** Where the framer sees a blank line, so does the standard, there or one byte before. */
  lemma FramerSeesBlankLines(s: Bytes, i: nat)
    requires DelimiterAt(s, i) > 0
    ensures BlankAt(s, i) > 0 || (i > 0 && BlankAt(s, i - 1) > 0)
  {
    if At(s, i, LF_LF) {
      assert s[i] == s[i..i + 2][0] == LF && s[i + 1] == s[i..i + 2][1] == LF;
    } else {
      assert s[i] == s[i..i + 4][0] == CR && s[i + 1] == s[i..i + 4][1] == LF;
      assert s[i + 2] == s[i..i + 4][2] == CR && s[i + 3] == s[i..i + 4][3] == LF;
    }
  }

  lemma BoundariesAgreeIff(s: Bytes)
    ensures FrameBoundary(s) == StandardFrom(s, 0)
       <==> (StandardFrom(s, 0).Some? ==> WrittenAsExpected(s, StandardFrom(s, 0).value))
  {
    hide DelimiterAt, BlankAt;
    var standard, found := StandardFrom(s, 0), FrameBoundary(s);
    if standard.None? {
      if found.Some? {
        FramerSeesBlankLines(s, found.value.end);
      }
    } else if WrittenAsExpected(s, standard.value) {
      var b := standard.value;
      forall i | 0 <= i < b.end
        ensures DelimiterAt(s, i) == 0
      {
        if DelimiterAt(s, i) > 0 {
          FramerSeesBlankLines(s, i);
        }
      }
      BoundaryIsFirst(s, b);
    }
  }

  /** The framer cuts a stream as the standard does exactly when its blank lines are written as expected. */
  lemma {:induction false} FramesAreStandardIff(stream: Bytes)
    ensures Split(stream) == StandardSplit(stream) <==> BlankLinesAsExpected(stream)
    decreases |stream|
  {
    hide FrameBoundary, StandardFrom, DelimiterAt, BlankAt;
    BoundariesAgreeIff(stream);
    var standard, found := StandardFrom(stream, 0), FrameBoundary(stream);
    if standard.None? {
    } else if found == standard {
      var rest := stream[standard.value.end + standard.value.delimiter..];
      FramesAreStandardIff(rest);
      assert Split(stream).frames[1..] == Split(rest).frames;
      assert StandardSplit(stream).frames[1..] == StandardSplit(rest).frames;
    } else if found.Some? {
      assert |Split(stream).frames[0].bytes| == found.value.end;
      assert |StandardSplit(stream).frames[0].bytes| == standard.value.end;
    }
  }

  const MIXED: Bytes := [97, LF, CR, LF, 98, LF, LF]

  /** An instance: with mixed endings the standard sees two blocks, and the framer one. */
  lemma MixedEndingsDiffer()
    ensures StandardSplit(MIXED) == Framed([Frame([97], 3), Frame([98], 2)], [])
    ensures Split(MIXED) == Framed([Frame([97, LF, CR, LF, 98], 2)], [])
  {
    var second := MIXED[4..];
    assert StandardFrom(MIXED, 0) == Some(Boundary(1, 3)) by {
      assert BlankAt(MIXED, 0) == 0 && BlankAt(MIXED, 1) == 3;
    }
    assert second == [98, LF, LF] && second[3..] == [] && MIXED[..1] == [97] && second[..1] == [98];
    assert StandardFrom(second, 0) == Some(Boundary(1, 2)) by {
      assert BlankAt(second, 0) == 0 && BlankAt(second, 1) == 2;
    }
    assert StandardSplit(second) == Framed([Frame([98], 2)], []);
    forall i | 0 <= i < 5
      ensures DelimiterAt(MIXED, i) == 0
    {
      assert i + 2 <= |MIXED| ==> MIXED[i..i + 2] == [MIXED[i], MIXED[i + 1]];
      assert i + 4 <= |MIXED| ==> MIXED[i..i + 4] == [MIXED[i], MIXED[i + 1], MIXED[i + 2], MIXED[i + 3]];
    }
    assert MIXED[5..7] == LF_LF;
    BoundaryIsFirst(MIXED, Boundary(5, 2));
    assert MIXED[7..] == [] && MIXED[..5] == [97, LF, CR, LF, 98];
    assert Split([]) == Framed([], []);
  }
}
