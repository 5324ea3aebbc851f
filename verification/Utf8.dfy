/** Which byte strings are UTF-8: the ranges of table 3-7 of the Unicode Standard. */
module Utf8 {
  import opened ByteStrings

  predicate Continuation(s: Bytes, i: nat, low: nat, high: nat) {
    i < |s| && low <= s[i] <= high
  }

  /** The length of the well-formed character that s starts with; 0 when there is none. */
  function LeadingCharacter(s: Bytes): (n: nat)
    ensures n <= 4 && n <= |s|
  {
    if s == [] then 0
    else if s[0] < 0x80 then 1
    else if 0xC2 <= s[0] <= 0xDF && Continuation(s, 1, 0x80, 0xBF) then 2
    else if 0xE0 <= s[0] <= 0xEF then
      if Continuation(s, 1, if s[0] == 0xE0 then 0xA0 else 0x80, if s[0] == 0xED then 0x9F else 0xBF)
         && Continuation(s, 2, 0x80, 0xBF) then 3 else 0
    else if 0xF0 <= s[0] <= 0xF4 then
      if Continuation(s, 1, if s[0] == 0xF0 then 0x90 else 0x80, if s[0] == 0xF4 then 0x8F else 0xBF)
         && Continuation(s, 2, 0x80, 0xBF) && Continuation(s, 3, 0x80, 0xBF) then 4 else 0
    else 0
  }

  predicate Valid(s: Bytes)
    decreases |s|
  {
    s == [] || (LeadingCharacter(s) > 0 && Valid(s[LeadingCharacter(s)..]))
  }

  predicate Ascii(s: Bytes) {
    forall i :: 0 <= i < |s| ==> s[i] < 0x80
  }

  lemma {:induction false} AsciiIsValid(s: Bytes)
    requires Ascii(s)
    ensures Valid(s)
    decreases |s|
  {
    if s == [] {
    } else {
      AsciiIsValid(s[1..]);
    }
  }

  lemma {:induction false} ConcatenationIsValid(s: Bytes, t: Bytes)
    requires Valid(s) && Valid(t)
    ensures Valid(s + t)
    decreases |s|
  {
    if s == [] {
      assert s + t == t;
    } else {
      var n := LeadingCharacter(s);
      assert forall i :: 0 <= i < n ==> (s + t)[i] == s[i];
      assert LeadingCharacter(s + t) == n;
      assert (s + t)[n..] == s[n..] + t;
      ConcatenationIsValid(s[n..], t);
    }
  }

  // ---- What valid byte strings are --------------------------------------------------------

  /** A Unicode scalar value: any code point but a surrogate. */
  type Scalar = c: int | 0 <= c < 0xD800 || 0xE000 <= c < 0x11_0000

  /** The encoding form of section 3.9 of the Unicode Standard: six bits in each byte after the first. */
  function Encode(c: Scalar): (r: Bytes)
    ensures 1 <= |r| <= 4
  {
    if c < 0x80 then [c]
    else if c < 0x800 then [0xC0 + c / 0x40, 0x80 + c % 0x40]
    else if c < 0x1_0000 then [0xE0 + c / 0x1000, 0x80 + c / 0x40 % 0x40, 0x80 + c % 0x40]
    else [0xF0 + c / 0x4_0000, 0x80 + c / 0x1000 % 0x40, 0x80 + c / 0x40 % 0x40, 0x80 + c % 0x40]
  }

  function EncodeAll(text: seq<Scalar>): Bytes {
    if text == [] then [] else Encode(text[0]) + EncodeAll(text[1..])
  }

  lemma EncodedIsCharacter(c: Scalar, rest: Bytes)
    ensures LeadingCharacter(Encode(c) + rest) == |Encode(c)|
  {
    var s := Encode(c) + rest;
    assert forall i :: 0 <= i < |Encode(c)| ==> s[i] == Encode(c)[i];
  }

  lemma CharacterIsEncoded(s: Bytes) returns (c: Scalar)
    requires LeadingCharacter(s) > 0
    ensures s[..LeadingCharacter(s)] == Encode(c)
  {
    var n := LeadingCharacter(s);
    var a: int := s[0];
    if n == 1 {
      c := a;
      assert s[..1] == [a];
    } else if n == 2 {
      c := TwoBytes(a, s[1]);
      assert s[..2] == [a, s[1]];
    } else if n == 3 {
      c := ThreeBytes(a, s[1], s[2]);
      assert s[..3] == [a, s[1], s[2]];
    } else {
      c := FourBytes(a, s[1], s[2], s[3]);
      assert s[..4] == [a, s[1], s[2], s[3]];
    }
  }

  lemma TwoBytes(a: int, b: int) returns (c: Scalar)
    requires 0xC2 <= a <= 0xDF && 0x80 <= b <= 0xBF
    ensures Encode(c) == [a, b]
  {
    c := (a - 0xC0) * 0x40 + (b - 0x80);
  }

  lemma ThreeBytes(a: int, b: int, d: int) returns (c: Scalar)
    requires 0xE0 <= a <= 0xEF && 0x80 <= b <= 0xBF && 0x80 <= d <= 0xBF
    requires (a == 0xE0 ==> b >= 0xA0) && (a == 0xED ==> b <= 0x9F)
    ensures Encode(c) == [a, b, d]
  {
    c := (a - 0xE0) * 0x1000 + (b - 0x80) * 0x40 + (d - 0x80);
    assert c / 0x40 == (a - 0xE0) * 0x40 + (b - 0x80);
  }

  lemma FourBytes(a: int, b: int, d: int, e: int) returns (c: Scalar)
    requires 0xF0 <= a <= 0xF4 && 0x80 <= b <= 0xBF && 0x80 <= d <= 0xBF && 0x80 <= e <= 0xBF
    requires (a == 0xF0 ==> b >= 0x90) && (a == 0xF4 ==> b <= 0x8F)
    ensures Encode(c) == [a, b, d, e]
  {
    c := (a - 0xF0) * 0x4_0000 + (b - 0x80) * 0x1000 + (d - 0x80) * 0x40 + (e - 0x80);
    assert c / 0x40 == (a - 0xF0) * 0x1000 + (b - 0x80) * 0x40 + (d - 0x80);
    assert c / 0x1000 == (a - 0xF0) * 0x40 + (b - 0x80);
  }

  lemma {:induction false} EncodedIsValid(text: seq<Scalar>)
    ensures Valid(EncodeAll(text))
  {
    hide LeadingCharacter, Encode;
    if text == [] {
    } else {
      EncodedIsValid(text[1..]);
      EncodedIsCharacter(text[0], EncodeAll(text[1..]));
      var s := EncodeAll(text);
      assert s[LeadingCharacter(s)..] == EncodeAll(text[1..]);
    }
  }

  lemma {:induction false} ValidIsEncoded(s: Bytes) returns (text: seq<Scalar>)
    requires Valid(s)
    ensures s == EncodeAll(text)
    decreases |s|
  {
    hide LeadingCharacter, Encode;
    if s == [] {
      text := [];
    } else {
      var n := LeadingCharacter(s);
      var c := CharacterIsEncoded(s);
      var rest := ValidIsEncoded(s[n..]);
      text := [c] + rest;
      assert text[1..] == rest && s == s[..n] + s[n..];
    }
  }

  /** A byte string is valid exactly when it encodes some text. */
  lemma ValidIff(s: Bytes)
    ensures Valid(s) <==> exists text :: s == EncodeAll(text)
  {
    if Valid(s) {
      var text := ValidIsEncoded(s);
    }
    if text :| s == EncodeAll(text) {
      EncodedIsValid(text);
    }
  }
}
