/** The identifiers the migrator makes: a UUID of version 7 (section 5.7 of RFC 9562) as text. */
module Uuid {
  import opened Wrappers
  import opened ByteStrings
  import Paths

  const TIMESTAMPS: nat := 0x1_0000_0000_0000

  /** The two masks of the source, in arithmetic. */
  function WithVersion(b: Byte): Byte {
    b % 16 + 0x70
  }

  function WithVariant(b: Byte): Byte {
    b % 64 + 0x80
  }

  lemma MasksAreArithmetic(b: bv8)
    ensures (b & 0x0f) | 0x70 == b % 16 + 0x70
    ensures (b & 0x3f) | 0x80 == b % 64 + 0x80
  {
  }

  /** The bytes after stamping: a big-endian timestamp, then random bits around version and variant. */
  function Stamped(random: Bytes, timestamp: nat): (r: Bytes)
    requires |random| == 16
    ensures |r| == 16
  {
    BeBytes(timestamp, 6) + [WithVersion(random[6]), random[7], WithVariant(random[8])] + random[9..]
  }

  method Stamp(bytes: array<Byte>, timestamp: nat)
    requires bytes.Length == 16
    modifies bytes
    ensures bytes[..] == Stamped(old(bytes[..]), timestamp)
  {
    hide BeBytes;
    SixBytes(timestamp);
    ghost var random := bytes[..];
    bytes[0] := timestamp / 0x100_0000_0000 % 256;
    bytes[1] := timestamp / 0x1_0000_0000 % 256;
    bytes[2] := timestamp / 0x100_0000 % 256;
    bytes[3] := timestamp / 0x1_0000 % 256;
    bytes[4] := timestamp / 0x100 % 256;
    bytes[5] := timestamp % 256;
    bytes[6] := WithVersion(bytes[6]);
    bytes[8] := WithVariant(bytes[8]);
    assert bytes[9..] == random[9..];
    assert bytes[..] == bytes[..6] + bytes[6..9] + bytes[9..];
  }

  lemma SixBytes(t: nat)
    ensures BeBytes(t, 6)
         == [t / 0x100_0000_0000 % 256, t / 0x1_0000_0000 % 256, t / 0x100_0000 % 256,
             t / 0x1_0000 % 256, t / 0x100 % 256, t % 256]
  {
    var a := t / 256;
    var b := a / 256;
    var c := b / 256;
    var d := c / 256;
    var e := d / 256;
    assert b == t / 0x1_0000 && c == t / 0x100_0000 && d == t / 0x1_0000_0000 && e == t / 0x100_0000_0000;
    LastByte(t, 6);
    LastByte(a, 5);
    LastByte(b, 4);
    LastByte(c, 3);
    LastByte(d, 2);
    LastByte(e, 1);
    LastByte(e / 256, 0);
  }

  lemma LastByte(v: nat, n: nat)
    ensures BeBytes(v, n) == if n == 0 then [] else BeBytes(v / 256, n - 1) + [v % 256]
  {
  }

  // ---- Text -------------------------------------------------------------------------------

  const DIGITS: string := "0123456789abcdef"

  function HexByte(b: Byte): (r: string)
    ensures |r| == 2
  {
    [DIGITS[b / 16], DIGITS[b % 16]]
  }

  function Hex(bytes: Bytes): (r: string)
    ensures |r| == 2 * |bytes|
  {
    if bytes == [] then "" else HexByte(bytes[0]) + Hex(bytes[1..])
  }

  /** The 8-4-4-4-12 layout. */
  function Format(bytes: Bytes): (text: string)
    requires |bytes| == 16
    ensures |text| == 36
  {
    var hex := Hex(bytes);
    hex[..8] + "-" + hex[8..12] + "-" + hex[12..16] + "-" + hex[16..20] + "-" + hex[20..32]
  }

  method UuidV7(random: Bytes, now: nat) returns (text: string)
    requires |random| == 16
    ensures text == Format(Stamped(random, now))
  {
    hide Stamped, Format, Hex;
    var bytes := new Byte[16](i requires 0 <= i < 16 => random[i]);
    assert bytes[..] == random;
    Stamp(bytes, now);
    var hex := Hex(bytes[..]);
    text := Layout(bytes[..], hex);
  }

  /** Slices of the hexadecimal text, joined with dashes. */
  method Layout(bytes: Bytes, hex: string) returns (text: string)
    requires |bytes| == 16 && hex == Hex(bytes)
    ensures text == Format(bytes)
  {
    hide Hex;
    text := hex[..8] + "-" + hex[8..12] + "-" + hex[12..16] + "-" + hex[16..20] + "-" + hex[20..32];
  }

  // ---- Reading it back --------------------------------------------------------------------

  function Digit(c: char): Option<nat> {
    if '0' <= c <= '9' then Some(c as int - '0' as int)
    else if 'a' <= c <= 'f' then Some(c as int - 'a' as int + 10)
    else None
  }

  function ParseHex(s: string): Option<Bytes> {
    if s == "" then Some([])
    else if |s| == 1 then None
    else
      match (Digit(s[0]), Digit(s[1]), ParseHex(s[2..]))
      case (Some(high), Some(low), Some(rest)) => if high < 16 && low < 16 then Some([16 * high + low] + rest) else None
      case _ => None
  }

  /** A reader of the standard layout. */
  function Parse(text: string): Option<Bytes> {
    if |text| == 36 && text[8] == '-' && text[13] == '-' && text[18] == '-' && text[23] == '-'
    then ParseHex(text[..8] + text[9..13] + text[14..18] + text[19..23] + text[24..])
    else None
  }

  lemma DigitsParse(b: Byte)
    ensures Digit(HexByte(b)[0]) == Some(b / 16) && Digit(HexByte(b)[1]) == Some(b % 16)
  {
  }

  lemma {:induction false} HexParses(bytes: Bytes)
    ensures ParseHex(Hex(bytes)) == Some(bytes)
  {
    hide HexByte, Digit;
    if bytes == [] {
    } else {
      HexParses(bytes[1..]);
      DigitsParse(bytes[0]);
      assert Hex(bytes)[2..] == Hex(bytes[1..]) && Hex(bytes)[..2] == HexByte(bytes[0]);
      assert [bytes[0]] + bytes[1..] == bytes;
    }
  }

  lemma FormatParses(bytes: Bytes)
    requires |bytes| == 16
    ensures Parse(Format(bytes)) == Some(bytes)
  {
    hide Hex, ParseHex;
    HexParses(bytes);
    var hex, text := Hex(bytes), Format(bytes);
    assert text[..8] == hex[..8] && text[9..13] == hex[8..12] && text[14..18] == hex[12..16];
    assert text[19..23] == hex[16..20] && text[24..] == hex[20..32];
    assert hex[..8] + hex[8..12] + hex[12..16] + hex[16..20] + hex[20..32] == hex;
  }

  lemma {:induction false} BeTruncates(v: nat, n: nat)
    ensures BeValue(BeBytes(v, n)) == v % Pow256(n)
  {
    if n == 0 {
    } else {
      BeTruncates(v / 256, n - 1);
      assert BeBytes(v, n)[..n - 1] == BeBytes(v / 256, n - 1);
      ModSplits(v, Pow256(n - 1));
    }
  }

  lemma ModSplits(v: nat, m: nat)
    requires m > 0
    ensures v % (256 * m) == 256 * (v / 256 % m) + v % 256
  {
    var q, r := v / 256 / m, v / 256 % m;
    assert v / 256 == q * m + r;
    assert v == q * (256 * m) + (256 * r + v % 256);
    RemainderIs(v, 256 * m, q, 256 * r + v % 256);
  }

  lemma RemainderIs(v: nat, m: nat, q: nat, r: nat)
    requires m > 0 && r < m && v == q * m + r
    ensures v % m == r
  {
    var d := v / m - q;
    assert v % m == r - d * m;
    assert d > 0 ==> d * m >= m;
    assert d < 0 ==> d * m + m <= 0;
  }

  /**
   The text is a version-7 UUID of the standard variant; its timestamp field is the clock modulo
   2^48, so it is the clock itself exactly below 2^48; the other bits are the random ones.
   */
  lemma TextDecodes(random: Bytes, now: nat)
    requires |random| == 16
    ensures Parse(Format(Stamped(random, now))) == Some(Stamped(random, now))
    ensures var bytes := Stamped(random, now);
            && BeValue(bytes[..6]) == now % TIMESTAMPS
            && (BeValue(bytes[..6]) == now <==> now < TIMESTAMPS)
            && bytes[6] / 16 == 7 && bytes[8] / 64 == 2
            && bytes[6] % 16 == random[6] % 16 && bytes[8] % 64 == random[8] % 64
            && bytes[7] == random[7] && bytes[9..] == random[9..]
  {
    hide BeBytes, BeValue, Parse, Format;
    FormatParses(Stamped(random, now));
    BeTruncates(now, 6);
    SixPowers();
    assert Stamped(random, now)[..6] == BeBytes(now, 6);
  }

  lemma SixPowers()
    ensures Pow256(6) == TIMESTAMPS
  {
    assert Pow256(3) == 0x100_0000;
    assert Pow256(6) == 256 * (256 * (256 * Pow256(3)));
  }

  // ---- Order ------------------------------------------------------------------------------

  /** The first place two byte strings differ is k, and a is smaller there. */
  ghost predicate SmallerAt(a: Bytes, b: Bytes, k: nat) {
    k < |a| && k < |b| && a[..k] == b[..k] && a[k] < b[k]
  }

  lemma {:induction false} BytesKeepOrder(v: nat, w: nat, n: nat) returns (k: nat)
    requires v < w < Pow256(n)
    ensures k < n && SmallerAt(BeBytes(v, n), BeBytes(w, n), k)
  {
    if v / 256 < w / 256 {
      k := BytesKeepOrder(v / 256, w / 256, n - 1);
      assert BeBytes(v, n)[..k] == BeBytes(v / 256, n - 1)[..k];
      assert BeBytes(w, n)[..k] == BeBytes(w / 256, n - 1)[..k];
    } else {
      k := n - 1;
      assert BeBytes(v, n)[..k] == BeBytes(v / 256, n - 1);
      assert BeBytes(w, n)[..k] == BeBytes(w / 256, n - 1);
    }
  }

  lemma {:induction false} SmallerAtIsBelow(s: string, t: string, i: nat)
    requires i < |s| && i < |t| && s[..i] == t[..i] && s[i] < t[i]
    ensures Paths.Below(s, t)
  {
    if i == 0 {
    } else {
      assert s[0] == s[..i][0] == t[..i][0] == t[0];
      assert s[1..][..i - 1] == s[..i][1..] == t[..i][1..] == t[1..][..i - 1];
      SmallerAtIsBelow(s[1..], t[1..], i - 1);
    }
  }

  lemma {:induction false} HexAt(bytes: Bytes, k: nat)
    requires k < |bytes|
    ensures Hex(bytes)[2 * k..2 * k + 2] == HexByte(bytes[k])
    ensures Hex(bytes)[..2 * k] == Hex(bytes[..k])
  {
    if k == 0 {
      assert Hex(bytes)[..2] == HexByte(bytes[0]);
      assert bytes[..0] == [];
    } else {
      HexAt(bytes[1..], k - 1);
      assert Hex(bytes)[2..] == Hex(bytes[1..]);
      assert Hex(bytes)[2 * k..2 * k + 2] == Hex(bytes)[2..][2 * (k - 1)..2 * (k - 1) + 2];
      assert bytes[..k][1..] == bytes[1..][..k - 1];
      assert Hex(bytes)[..2 * k] == HexByte(bytes[0]) + Hex(bytes[1..])[..2 * (k - 1)];
    }
  }

  lemma DigitsAscend()
    ensures |DIGITS| == 16 && forall i, j :: 0 <= i < j < 16 ==> DIGITS[i] < DIGITS[j]
  {
  }

  /** Two texts whose bytes first differ at k first differ at that byte's digits. */
  lemma FormatKeepsOrder(a: Bytes, b: Bytes, k: nat)
    requires |a| == |b| == 16 && k < 6 && SmallerAt(a, b, k)
    ensures Paths.Below(Format(a), Format(b))
  {
    hide Hex, Paths.Below, DIGITS;
    HexAt(a, k);
    HexAt(b, k);
    DigitsAscend();
    var p, q := Hex(a), Hex(b);
    assert a[k] / 16 <= b[k] / 16;
    var i := if a[k] / 16 < b[k] / 16 then 2 * k else 2 * k + 1;
    assert p[2 * k] == p[2 * k..2 * k + 2][0] && p[2 * k + 1] == p[2 * k..2 * k + 2][1];
    assert q[2 * k] == q[2 * k..2 * k + 2][0] && q[2 * k + 1] == q[2 * k..2 * k + 2][1];
    assert p[i] < q[i];
    assert forall j :: 0 <= j < 2 * k ==> p[j] == p[..2 * k][j] == q[..2 * k][j] == q[j];
    assert p[..i] == q[..i];
    DashesKeepOrder(a, b, i);
  }

  lemma DashesKeepOrder(a: Bytes, b: Bytes, i: nat)
    requires |a| == |b| == 16 && i < 12
    requires Hex(a)[..i] == Hex(b)[..i] && Hex(a)[i] < Hex(b)[i]
    ensures Paths.Below(Format(a), Format(b))
  {
    hide Hex, Paths.Below;
    var p, q, s, t := Hex(a), Hex(b), Format(a), Format(b);
    var at := if i < 8 then i else i + 1;
    assert forall j :: 0 <= j < i ==> p[j] == p[..i][j] == q[..i][j] == q[j];
    assert forall j :: 0 <= j < at ==> s[j] == t[j];
    assert s[..at] == t[..at];
    SmallerAtIsBelow(s, t, at);
  }

  /** Whatever the random bytes, an earlier clock gives a lexicographically smaller text. */
  lemma EarlierIsSmaller(random: Bytes, now: nat, laterRandom: Bytes, later: nat)
    requires |random| == |laterRandom| == 16 && now < later < TIMESTAMPS
    ensures Paths.Below(Format(Stamped(random, now)), Format(Stamped(laterRandom, later)))
  {
    hide BeBytes, Format, Paths.Below;
    SixPowers();
    var k := BytesKeepOrder(now, later, 6);
    var a, b := Stamped(random, now), Stamped(laterRandom, later);
    assert a[..k] == BeBytes(now, 6)[..k] && b[..k] == BeBytes(later, 6)[..k];
    FormatKeepsOrder(a, b, k);
  }
}
