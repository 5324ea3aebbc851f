/**
 Reading the entry count of an APK from the end of its ZIP container, independently of the ZIP
 library, and the structural checks built on it (APPNOTE.TXT sections 4.3.14 to 4.3.16).
 */
module ApkZip {
  import opened Wrappers
  import opened ByteStrings

  const EOCD_MIN: nat := 22
  const EOCD_MAX: nat := 22 + 0xFFFF
  const LOCATOR_SIZE: nat := 20
  const ZIP64_SIZE: nat := 56
  const EOCD_SIGNATURE: Bytes := [0x50, 0x4B, 5, 6]
  const LOCATOR_SIGNATURE: Bytes := [0x50, 0x4B, 6, 7]
  const ZIP64_SIGNATURE: Bytes := [0x50, 0x4B, 6, 6]

  datatype ZipError =
    | MissingEocd | MultiDisk | MissingLocator | MissingZip64 | UnexpectedEof
    | TooManyEntries | NotZip | Empty | DuplicateNames | Traversal | Symlink | SigningMetadata | NestedApk | NoManifest

  /** A little-endian number of the given width. */
  function NumberAt(s: Bytes, i: nat, width: nat): nat
    requires i + width <= |s|
  {
    LeValue(s[i..i + width])
  }

  // ---- Finding the end record -------------------------------------------------------------

  /** An end record whose comment would reach exactly to the end of the data. */
  predicate RecordAt(s: Bytes, i: nat) {
    && i + EOCD_MIN <= |s|
    && s[i..i + 4] == EOCD_SIGNATURE
    && NumberAt(s, i + 20, 2) == |s| - i - EOCD_MIN
  }

  /** The last self-consistent end record, if any. */
  method FindRecord(tail: Bytes) returns (r: Option<nat>)
    ensures r.Some? ==> RecordAt(tail, r.value) && forall i: nat :: i > r.value ==> !RecordAt(tail, i)
    ensures r.None? ==> forall i: nat :: !RecordAt(tail, i)
  {
    if |tail| < EOCD_MIN {
      return None;
    }
    var next: nat := |tail| - EOCD_MIN + 1;
    while next > 0
      invariant next <= |tail| - EOCD_MIN + 1
      invariant forall i: nat :: i >= next ==> !RecordAt(tail, i)
    {
      next := next - 1;
      if RecordAt(tail, next) {
        return Some(next);
      }
    }
    return None;
  }

  function Tail(file: Bytes): (tail: Bytes)
    ensures |tail| <= |file| && file[|file| - |tail|..] == tail
  {
    if |file| <= EOCD_MAX then file else file[|file| - EOCD_MAX..]
  }

  /** Looking only at the tail finds the last record of the whole file. */
  lemma TailSuffices(file: Bytes, i: nat)
    ensures i + |Tail(file)| >= |file| ==> (RecordAt(file, i) <==> RecordAt(Tail(file), i + |Tail(file)| - |file|))
    ensures RecordAt(file, i) ==> i + |Tail(file)| >= |file|
  {
    var skip := |file| - |Tail(file)|;
    if i >= skip && i + EOCD_MIN <= |file| {
      assert file[i..i + 4] == Tail(file)[i - skip..i - skip + 4];
      assert file[i + 20..i + 22] == Tail(file)[i - skip + 20..i - skip + 22];
    }
    if RecordAt(file, i) {
      LeBounded(file[i + 20..i + 22]);
      Widths();
    }
  }

  ghost predicate LastRecord(file: Bytes, e: nat) {
    RecordAt(file, e) && forall i: nat :: i > e ==> !RecordAt(file, i)
  }

  lemma LastRecordIsUnique(file: Bytes, e: nat, f: nat)
    requires LastRecord(file, e) && LastRecord(file, f)
    ensures e == f
  {
  }

  method FindEocd(file: Bytes) returns (r: Option<nat>)
    ensures r.Some? ==> LastRecord(file, r.value)
    ensures r.None? ==> forall i: nat :: !RecordAt(file, i)
  {
    hide RecordAt;
    var tail := Tail(file);
    var found := FindRecord(tail);
    var skip := |file| - |tail|;
    forall i: nat
      ensures RecordAt(file, i) ==> i >= skip && RecordAt(tail, i - skip)
      ensures i >= skip && RecordAt(tail, i - skip) ==> RecordAt(file, i)
    {
      TailSuffices(file, i);
    }
    return match found case None => None case Some(at) => Some(skip + at);
  }

  // ---- What the end record says -----------------------------------------------------------

  /** The count behind the ZIP64 locator that precedes the end record at e. */
  function Zip64Count(file: Bytes, e: nat): Result<nat, ZipError>
    requires e <= |file|
  {
    if e < LOCATOR_SIZE then Err(MissingLocator)
    else
      var locator := file[e - LOCATOR_SIZE..e];
      if locator[..4] != LOCATOR_SIGNATURE then Err(MissingLocator)
      else if NumberAt(locator, 4, 4) != 0 || NumberAt(locator, 16, 4) != 1 then Err(MultiDisk)
      else
        var at := NumberAt(locator, 8, 8);
        if at + ZIP64_SIZE > |file| then Err(UnexpectedEof)
        else
          var record := file[at..at + ZIP64_SIZE];
          if record[..4] != ZIP64_SIGNATURE then Err(MissingZip64)
          else if NumberAt(record, 24, 8) != NumberAt(record, 32, 8) then Err(MultiDisk)
          else Ok(NumberAt(record, 32, 8))
  }

  function RecordCount(file: Bytes, e: nat): Result<nat, ZipError>
    requires RecordAt(file, e)
  {
    if NumberAt(file, e + 4, 2) != 0 || NumberAt(file, e + 6, 2) != 0
       || NumberAt(file, e + 8, 2) != NumberAt(file, e + 10, 2) then Err(MultiDisk)
    else if NumberAt(file, e + 10, 2) != 0xFFFF then Ok(NumberAt(file, e + 10, 2))
    else Zip64Count(file, e)
  }

  /** The record at e says n: on one disk, n entries there and n in all. */
  predicate SaysPlainly(file: Bytes, e: nat, n: nat) {
    && n < 0x1_0000
    && At(file, e, Ascii("PK") + [5, 6] + LeBytes(0, 2) + LeBytes(0, 2) + LeBytes(n, 2) + LeBytes(n, 2))
  }

  /** Right before e there is a locator of one disk, and where it points a ZIP64 record that says n. */
  ghost predicate SaysInZip64(file: Bytes, e: nat, n: nat) {
    exists at: nat ::
      && at < 0x1_0000_0000_0000_0000 && at + ZIP64_SIZE <= |file|
      && IsLocator(file, e, at)
      && At(file, at, Ascii("PK") + [6, 6]) && n < 0x1_0000_0000_0000_0000
      && At(file, at + 24, LeBytes(n, 8)) && At(file, at + 32, LeBytes(n, 8))
  }

  lemma NumberIff(s: Bytes, i: nat, width: nat, v: nat)
    requires i + width <= |s| && v < Pow256(width)
    ensures NumberAt(s, i, width) == v <==> s[i..i + width] == LeBytes(v, width)
  {
    hide LeBytes, LeValue;
    LeRoundTrip(v, width);
    LeInverts(s[i..i + width]);
  }

  /** A record is believed exactly when it, or the ZIP64 record it defers to, says so in all its parts. */
  lemma RecordSaysIff(file: Bytes, e: nat, n: nat)
    requires RecordAt(file, e)
    ensures RecordCount(file, e) == Ok(n)
       <==> (n != 0xFFFF && SaysPlainly(file, e, n)) || (SaysPlainly(file, e, 0xFFFF) && SaysInZip64(file, e, n))
  {
    hide LeBytes, LeValue, NumberAt, RecordAt, SaysPlainly, SaysInZip64;
    assert e + EOCD_MIN <= |file| by {
      RecordFits(file, e);
    }
    PlainIff(file, e, 0xFFFF);
    ShortNumber(file, e + 10);
    if n < 0x1_0000 {
      PlainIff(file, e, n);
    } else {
      NotSaid(file, e, n);
    }
    Zip64SaysIff(file, e, n);
  }

  lemma ShortNumber(s: Bytes, i: nat)
    requires i + 2 <= |s|
    ensures NumberAt(s, i, 2) < 0x1_0000
  {
    LeBounded(s[i..i + 2]);
    Widths();
  }

  lemma NotSaid(file: Bytes, e: nat, n: nat)
    requires n >= 0x1_0000
    ensures !SaysPlainly(file, e, n)
  {
  }

  /** A run of bytes is there exactly when its parts are, one after the other. */
  lemma AtInParts(s: Bytes, i: nat, first: Bytes, rest: Bytes)
    ensures At(s, i, first + rest) <==> At(s, i, first) && At(s, i + |first|, rest)
  {
    if i + |first| + |rest| <= |s| {
      var whole, m := s[i..i + |first| + |rest|], |first|;
      assert whole[..m] == s[i..i + m] && whole[m..] == s[i + m..i + m + |rest|];
      assert (first + rest)[..m] == first && (first + rest)[m..] == rest;
      assert whole == whole[..m] + whole[m..];
    }
  }

  lemma PlainIff(file: Bytes, e: nat, n: nat)
    requires RecordAt(file, e) && e + EOCD_MIN <= |file| && n < 0x1_0000
    ensures SaysPlainly(file, e, n)
       <==> NumberAt(file, e + 4, 2) == 0 && NumberAt(file, e + 6, 2) == 0
            && NumberAt(file, e + 8, 2) == n && NumberAt(file, e + 10, 2) == n
  {
    hide LeBytes, LeValue, NumberAt;
    Widths();
    var sign, zero, count := Ascii("PK") + [5, 6], LeBytes(0, 2), LeBytes(n, 2);
    assert EOCD_SIGNATURE == sign;
    assert sign + zero + zero + count + count == sign + (zero + (zero + (count + count)));
    AtInParts(file, e, sign, zero + (zero + (count + count)));
    AtInParts(file, e + 4, zero, zero + (count + count));
    AtInParts(file, e + 6, zero, count + count);
    AtInParts(file, e + 8, count, count);
    NumberIff(file, e + 4, 2, 0);
    NumberIff(file, e + 6, 2, 0);
    NumberIff(file, e + 8, 2, n);
    NumberIff(file, e + 10, 2, n);
  }

  lemma Zip64SaysIff(file: Bytes, e: nat, n: nat)
    requires e <= |file|
    ensures Zip64Count(file, e) == Ok(n) <==> SaysInZip64(file, e, n)
  {
    hide LeBytes, LeValue, NumberAt;
    if e >= LOCATOR_SIZE {
      var locator := file[e - LOCATOR_SIZE..e];
      NumberBounds(locator, 8, 8);
      var at := NumberAt(locator, 8, 8);
      LocatorIff(file, e, at);
      forall other: nat | other < 0x1_0000_0000_0000_0000
        ensures IsLocator(file, e, other) ==> other == at
      {
        LocatorIff(file, e, other);
      }
      if at + ZIP64_SIZE <= |file| {
        NumberBounds(file[at..at + ZIP64_SIZE], 32, 8);
        Zip64Iff(file, at, n);
      }
    }
  }

  predicate IsLocator(file: Bytes, e: nat, at: nat) {
    At(file, e - LOCATOR_SIZE, Ascii("PK") + [6, 7] + LeBytes(0, 4) + LeBytes(at, 8) + LeBytes(1, 4))
  }

  lemma NumberBounds(s: Bytes, i: nat, width: nat)
    requires i + width <= |s| && width == 8
    ensures NumberAt(s, i, width) < 0x1_0000_0000_0000_0000
  {
    LeBounded(s[i..i + width]);
    Widths();
  }

  lemma LocatorIff(file: Bytes, e: nat, at: nat)
    requires LOCATOR_SIZE <= e <= |file| && at < 0x1_0000_0000_0000_0000
    ensures var locator := file[e - LOCATOR_SIZE..e];
            IsLocator(file, e, at)
            <==> locator[..4] == LOCATOR_SIGNATURE && NumberAt(locator, 4, 4) == 0 && NumberAt(locator, 8, 8) == at
                 && NumberAt(locator, 16, 4) == 1
  {
    hide LeBytes, LeValue, NumberAt;
    Widths();
    var locator := file[e - LOCATOR_SIZE..e];
    var sign, disk, offset, disks := Ascii("PK") + [6, 7], LeBytes(0, 4), LeBytes(at, 8), LeBytes(1, 4);
    assert LOCATOR_SIGNATURE == sign;
    assert At(file, e - LOCATOR_SIZE, sign + disk + offset + disks) <==> At(locator, 0, sign + disk + offset + disks);
    assert sign + disk + offset + disks == sign + (disk + (offset + disks));
    AtInParts(locator, 0, sign, disk + (offset + disks));
    AtInParts(locator, 4, disk, offset + disks);
    AtInParts(locator, 8, offset, disks);
    NumberIff(locator, 4, 4, 0);
    NumberIff(locator, 8, 8, at);
    NumberIff(locator, 16, 4, 1);
  }

  lemma Zip64Iff(file: Bytes, at: nat, n: nat)
    requires at + ZIP64_SIZE <= |file|
    ensures var record := file[at..at + ZIP64_SIZE];
            (record[..4] == ZIP64_SIGNATURE && NumberAt(record, 24, 8) == n && NumberAt(record, 32, 8) == n)
            <==> At(file, at, Ascii("PK") + [6, 6]) && n < 0x1_0000_0000_0000_0000
                 && At(file, at + 24, LeBytes(n, 8)) && At(file, at + 32, LeBytes(n, 8))
  {
    hide LeBytes, LeValue, NumberAt;
    Widths();
    var record := file[at..at + ZIP64_SIZE];
    assert ZIP64_SIGNATURE == Ascii("PK") + [6, 6];
    assert forall k :: 0 <= k < ZIP64_SIZE ==> record[k] == file[at + k];
    assert record[..4] == file[at..at + 4];
    assert record[24..32] == file[at + 24..at + 32];
    assert record[32..40] == file[at + 32..at + 40];
    NumberBounds(record, 24, 8);
    if n < 0x1_0000_0000_0000_0000 {
      NumberIff(record, 24, 8, n);
      NumberIff(record, 32, 8, n);
    }
  }

  /** The last self-consistent record before an index. */
  function LastBefore(file: Bytes, next: nat): (r: Option<nat>)
    ensures r.Some? ==> r.value < next && RecordAt(file, r.value)
    ensures r.Some? ==> forall i: nat :: r.value < i < next ==> !RecordAt(file, i)
    ensures r.None? ==> forall i: nat :: i < next ==> !RecordAt(file, i)
  {
    if next == 0 then None
    else if RecordAt(file, next - 1) then Some(next - 1)
    else LastBefore(file, next - 1)
  }

  /** What a file declares: the answer of its last self-consistent record. */
  function DeclaredEntries(file: Bytes): Result<nat, ZipError> {
    match LastBefore(file, |file|)
    case None => Err(MissingEocd)
    case Some(e) => RecordCount(file, e)
  }

  lemma LastIsDeclared(file: Bytes)
    ensures forall e: nat :: LastRecord(file, e) ==> DeclaredEntries(file) == RecordCount(file, e)
    ensures (forall i: nat :: !RecordAt(file, i)) ==> DeclaredEntries(file) == Err(MissingEocd)
  {
    hide RecordCount;
    forall e: nat | LastRecord(file, e)
      ensures LastBefore(file, |file|) == Some(e)
    {
      RecordFits(file, e);
    }
  }

  method DeclaredZipEntries(file: Bytes) returns (r: Result<nat, ZipError>)
    ensures r == DeclaredEntries(file)
  {
    hide RecordAt, DeclaredEntries;
    LastIsDeclared(file);
    var found := FindEocd(file);
    if found.None? {
      return Err(MissingEocd);
    }
    var e := found.value;
    RecordFits(file, e);
    var tail := file[e..];
    if NumberAt(tail, 4, 2) != 0 || NumberAt(tail, 6, 2) != 0 || NumberAt(tail, 8, 2) != NumberAt(tail, 10, 2) {
      TailNumbers(file, e);
      return Err(MultiDisk);
    }
    TailNumbers(file, e);
    if NumberAt(tail, 10, 2) != 0xFFFF {
      return Ok(NumberAt(tail, 10, 2));
    }
    return Zip64Count(file, e);
  }

  lemma RecordFits(file: Bytes, e: nat)
    requires RecordAt(file, e)
    ensures e + EOCD_MIN <= |file|
  {
  }

  lemma TailNumbers(file: Bytes, e: nat)
    requires e + EOCD_MIN <= |file|
    ensures NumberAt(file[e..], 4, 2) == NumberAt(file, e + 4, 2)
    ensures NumberAt(file[e..], 6, 2) == NumberAt(file, e + 6, 2)
    ensures NumberAt(file[e..], 8, 2) == NumberAt(file, e + 8, 2)
    ensures NumberAt(file[e..], 10, 2) == NumberAt(file, e + 10, 2)
  {
    assert file[e..][4..6] == file[e + 4..e + 6];
    assert file[e..][6..8] == file[e + 6..e + 8];
    assert file[e..][8..10] == file[e + 8..e + 10];
    assert file[e..][10..12] == file[e + 10..e + 12];
  }

  // ---- Writing ----------------------------------------------------------------------------

  /** What a writer records about the central directory. */
  datatype Directory = Directory(count: U64, size: U64, offset: U64)

  function EndRecord(d: Directory, comment: Bytes): Bytes
    requires |comment| <= 0xFFFF
  {
    EOCD_SIGNATURE + LeBytes(0, 2) + LeBytes(0, 2)
    + LeBytes(Minimum(d.count, 0xFFFF), 2) + LeBytes(Minimum(d.count, 0xFFFF), 2)
    + LeBytes(Minimum(d.size, 0xFFFF_FFFF), 4) + LeBytes(Minimum(d.offset, 0xFFFF_FFFF), 4)
    + LeBytes(|comment|, 2) + comment
  }

  function Zip64Record(d: Directory, version: U16): Bytes {
    ZIP64_SIGNATURE + LeBytes(44, 8) + LeBytes(version, 2) + LeBytes(version, 2) + LeBytes(0, 4) + LeBytes(0, 4)
    + LeBytes(d.count, 8) + LeBytes(d.count, 8) + LeBytes(d.size, 8) + LeBytes(d.offset, 8)
  }

  function Locator(at: U64): Bytes {
    LOCATOR_SIGNATURE + LeBytes(0, 4) + LeBytes(at, 8) + LeBytes(1, 4)
  }

  /** Whatever precedes the end record; the ZIP64 records are written when the count needs them. */
  function Front(body: Bytes, d: Directory, version: U16): Bytes
    requires |body| < 0x1_0000_0000_0000_0000
  {
    if d.count < 0xFFFF then body else body + Zip64Record(d, version) + Locator(|body|)
  }

  function WriteZip(body: Bytes, d: Directory, version: U16, comment: Bytes): Bytes
    requires |body| < 0x1_0000_0000_0000_0000 && |comment| <= 0xFFFF
  {
    Front(body, d, version) + EndRecord(d, comment)
  }

  lemma NumberOf(s: Bytes, i: nat, width: nat, v: nat)
    requires i + width <= |s| && s[i..i + width] == LeBytes(v, width) && v < Pow256(width)
    ensures NumberAt(s, i, width) == v
  {
    LeRoundTrip(v, width);
  }

  lemma EndRecordFields(front: Bytes, d: Directory, comment: Bytes)
    requires |comment| <= 0xFFFF
    ensures var file, e := front + EndRecord(d, comment), |front|;
            && |file| == e + 22 + |comment|
            && file[e..e + 4] == EOCD_SIGNATURE
            && NumberAt(file, e + 4, 2) == 0 && NumberAt(file, e + 6, 2) == 0
            && NumberAt(file, e + 8, 2) == Minimum(d.count, 0xFFFF)
            && NumberAt(file, e + 10, 2) == Minimum(d.count, 0xFFFF)
            && NumberAt(file, e + 16, 4) == Minimum(d.offset, 0xFFFF_FFFF)
            && NumberAt(file, e + 20, 2) == |comment|
  {
    hide LeBytes, LeValue, Pow256;
    var file, e := front + EndRecord(d, comment), |front|;
    Widths();
    assert file[e + 4..e + 6] == LeBytes(0, 2);
    NumberOf(file, e + 4, 2, 0);
    assert file[e + 6..e + 8] == LeBytes(0, 2);
    NumberOf(file, e + 6, 2, 0);
    assert file[e + 8..e + 10] == LeBytes(Minimum(d.count, 0xFFFF), 2);
    NumberOf(file, e + 8, 2, Minimum(d.count, 0xFFFF));
    assert file[e + 10..e + 12] == LeBytes(Minimum(d.count, 0xFFFF), 2);
    NumberOf(file, e + 10, 2, Minimum(d.count, 0xFFFF));
    assert file[e + 16..e + 20] == LeBytes(Minimum(d.offset, 0xFFFF_FFFF), 4);
    NumberOf(file, e + 16, 4, Minimum(d.offset, 0xFFFF_FFFF));
    assert file[e + 20..e + 22] == LeBytes(|comment|, 2);
    NumberOf(file, e + 20, 2, |comment|);
  }

  lemma LocatorFields(at: U64)
    ensures |Locator(at)| == 20 && Locator(at)[..4] == LOCATOR_SIGNATURE
    ensures NumberAt(Locator(at), 4, 4) == 0
    ensures NumberAt(Locator(at), 8, 8) == at
    ensures NumberAt(Locator(at), 16, 4) == 1
  {
    hide LeBytes, LeValue, Pow256;
    var s := Locator(at);
    Widths();
    assert s[4..8] == LeBytes(0, 4);
    NumberOf(s, 4, 4, 0);
    assert s[8..16] == LeBytes(at, 8);
    NumberOf(s, 8, 8, at);
    assert s[16..20] == LeBytes(1, 4);
    NumberOf(s, 16, 4, 1);
  }

  lemma Zip64Fields(d: Directory, version: U16)
    ensures |Zip64Record(d, version)| == 56 && Zip64Record(d, version)[..4] == ZIP64_SIGNATURE
    ensures NumberAt(Zip64Record(d, version), 24, 8) == d.count
    ensures NumberAt(Zip64Record(d, version), 32, 8) == d.count
  {
    hide LeBytes, LeValue, Pow256;
    var s := Zip64Record(d, version);
    Widths();
    assert s[24..32] == LeBytes(d.count, 8);
    NumberOf(s, 24, 8, d.count);
    assert s[32..40] == LeBytes(d.count, 8);
    NumberOf(s, 32, 8, d.count);
  }

  /** The written record is one, and says the written count. */
  lemma WrittenRecord(body: Bytes, d: Directory, version: U16, comment: Bytes)
    requires |body| < 0x1_0000_0000_0000_0000 && |comment| <= 0xFFFF
    ensures var file, e := WriteZip(body, d, version, comment), |Front(body, d, version)|;
            RecordAt(file, e) && RecordCount(file, e) == Ok(d.count)
  {
    hide LeBytes, LeValue, Pow256, EndRecord, Zip64Record, Locator, NumberAt;
    var front := Front(body, d, version);
    var file, e := WriteZip(body, d, version, comment), |front|;
    EndRecordFields(front, d, comment);
    if d.count >= 0xFFFF {
      LocatorFields(|body|);
      Zip64Fields(d, version);
      assert file[e - LOCATOR_SIZE..e] == Locator(|body|);
      assert file[|body|..|body| + ZIP64_SIZE] == Zip64Record(d, version);
    }
  }

  lemma NumberShifts(front: Bytes, end: Bytes, i: nat)
    requires i + 2 <= |end|
    ensures NumberAt(front + end, |front| + i, 2) == NumberAt(end, i, 2)
  {
    assert (front + end)[|front| + i..|front| + i + 2] == end[i..i + 2];
  }

  /** Records in the end record's own bytes, its comment above all, are the later ones in the file. */
  lemma LaterRecords(front: Bytes, end: Bytes, j: nat)
    ensures RecordAt(front + end, |front| + j) <==> RecordAt(end, j)
    ensures RecordAt(end, j) && NumberAt(end, j + 10, 2) != 0xFFFF ==>
              RecordCount(front + end, |front| + j) == RecordCount(end, j)
  {
    var file := front + end;
    if j + EOCD_MIN <= |end| {
      assert file[|front|..] == end;
      NumberShifts(front, end, j + 4);
      NumberShifts(front, end, j + 6);
      NumberShifts(front, end, j + 8);
      NumberShifts(front, end, j + 10);
      NumberShifts(front, end, j + 20);
      assert file[|front| + j..|front| + j + 4] == end[j..j + 4];
    }
  }

  /**
   What the reader answers for a written archive: the written count, through the ZIP64 records if it
   needs them, when nothing inside the end record (its comment included) looks like a self-consistent
   end record of its own; otherwise what the last such record says.
   */
  lemma ReaderAnswersWriter(body: Bytes, d: Directory, version: U16, comment: Bytes)
    requires |body| < 0x1_0000_0000_0000_0000 && |comment| <= 0xFFFF
    ensures var file, front, end := WriteZip(body, d, version, comment), Front(body, d, version), EndRecord(d, comment);
            && ((forall j: nat :: j > 0 ==> !RecordAt(end, j)) ==> DeclaredEntries(file) == Ok(d.count))
            && (forall j: nat :: j > 0 && LastRecord(end, j) ==>
                  RecordAt(file, |front| + j) && DeclaredEntries(file) == RecordCount(file, |front| + j))
            && (forall j: nat :: j > 0 && LastRecord(end, j) && NumberAt(end, j + 10, 2) != 0xFFFF ==>
                  DeclaredEntries(file) == RecordCount(end, j))
  {
    hide RecordAt, RecordCount, Front, EndRecord, DeclaredEntries, NumberAt;
    var file, front, end := WriteZip(body, d, version, comment), Front(body, d, version), EndRecord(d, comment);
    WrittenRecord(body, d, version, comment);
    LastIsDeclared(file);
    forall j: nat
      ensures RecordAt(file, |front| + j) <==> RecordAt(end, j)
      ensures RecordAt(end, j) ==> j + EOCD_MIN <= |end|
      ensures RecordAt(end, j) && NumberAt(end, j + 10, 2) != 0xFFFF ==>
                RecordCount(file, |front| + j) == RecordCount(end, j)
    {
      LaterRecords(front, end, j);
      if RecordAt(end, j) {
        RecordFits(end, j);
      }
    }
    if forall j: nat :: j > 0 ==> !RecordAt(end, j) {
      LastInFile(file, front, end, 0);
    }
    forall j: nat | j > 0 && LastRecord(end, j)
      ensures LastRecord(file, |front| + j)
    {
      LastInFile(file, front, end, j);
    }
  }

  lemma LastInFile(file: Bytes, front: Bytes, end: Bytes, j: nat)
    requires forall k: nat :: RecordAt(file, |front| + k) <==> RecordAt(end, k)
    requires RecordAt(end, j) && forall k: nat :: k > j ==> !RecordAt(end, k)
    ensures LastRecord(file, |front| + j)
  {
    hide RecordAt;
    forall i: nat | i > |front| + j
      ensures !RecordAt(file, i)
    {
      assert !RecordAt(end, i - |front|);
      assert i == |front| + (i - |front|);
    }
  }

  /** With no end signature inside the end record, the written count is what is declared. */
  lemma PlainCommentIsSafe(body: Bytes, d: Directory, version: U16, comment: Bytes)
    requires |body| < 0x1_0000_0000_0000_0000 && |comment| <= 0xFFFF
    requires forall i :: i > 0 ==> !At(EndRecord(d, comment), i, EOCD_SIGNATURE)
    ensures DeclaredEntries(WriteZip(body, d, version, comment)) == Ok(d.count)
  {
    hide LeBytes, LeValue, EndRecord, NumberAt, RecordCount, WriteZip, DeclaredEntries, Front;
    var end := EndRecord(d, comment);
    ReaderAnswersWriter(body, d, version, comment);
    forall j: nat | j > 0
      ensures !RecordAt(end, j)
    {
      assert !At(end, j, EOCD_SIGNATURE);
    }
  }

  /**
   The condition is needed: whatever count was written, a comment that ends in an end record of its
   own makes the reader answer with that record's count.
   */
  lemma EmbeddedRecordIsRead(body: Bytes, d: Directory, version: U16, prefix: Bytes, forged: Directory)
    requires |body| < 0x1_0000_0000_0000_0000 && |prefix| + EOCD_MIN <= 0xFFFF && forged.count < 0xFFFF
    ensures |EndRecord(forged, [])| == EOCD_MIN
    ensures var file := WriteZip(body, d, version, prefix + EndRecord(forged, []));
            DeclaredEntries(file) == Ok(forged.count)
  {
    hide LeBytes, LeValue, Pow256, EndRecord, Front, NumberAt, DeclaredEntries, RecordCount;
    EndRecordFields([], forged, []);
    assert [] + EndRecord(forged, []) == EndRecord(forged, []);
    var comment := prefix + EndRecord(forged, []);
    var file := WriteZip(body, d, version, comment);
    EndsWithComment(d, comment);
    var before := file[..|file| - EOCD_MIN];
    assert file == before + EndRecord(forged, []);
    LastBytesAreARecord(before, forged);
    LastIsDeclared(file);
  }

  lemma LastBytesAreARecord(before: Bytes, d: Directory)
    requires d.count < 0xFFFF
    ensures LastRecord(before + EndRecord(d, []), |before|)
    ensures RecordCount(before + EndRecord(d, []), |before|) == Ok(d.count)
  {
    hide LeBytes, LeValue, Pow256, EndRecord, NumberAt;
    EndRecordFields(before, d, []);
  }

  lemma EndsWithComment(d: Directory, comment: Bytes)
    requires |comment| <= 0xFFFF
    ensures |EndRecord(d, comment)| == EOCD_MIN + |comment| && EndRecord(d, comment)[EOCD_MIN..] == comment
  {
  }

  // ---- The signing block ------------------------------------------------------------------

  const SIGNING_FOOTER: nat := 24
  const SIGNING_MAGIC: Bytes := [65, 80, 75, 32, 83, 105, 103, 32, 66, 108, 111, 99, 107, 32, 52, 50]

  /** Does the magic of an APK Signing Block stand right before the central directory? */
  function SigningBlockBefore(file: Bytes, e: nat): Result<bool, ZipError>
    requires RecordAt(file, e)
  {
    var offset := NumberAt(file, e + 16, 4);
    if offset < SIGNING_FOOTER then Ok(false)
    else if offset > |file| then Err(UnexpectedEof)
    else Ok(file[offset - SIGNING_FOOTER..offset][8..] == SIGNING_MAGIC)
  }

  method ContainsApkSigningBlock(file: Bytes) returns (r: Result<bool, ZipError>)
    ensures |file| < EOCD_MIN ==> r == Ok(false)
    ensures |file| >= EOCD_MIN && (forall i: nat :: !RecordAt(file, i)) ==> r == Err(MissingEocd)
    ensures |file| >= EOCD_MIN ==> forall e: nat :: LastRecord(file, e) ==> r == SigningBlockBefore(file, e)
  {
    hide RecordAt;
    if |file| < EOCD_MIN {
      return Ok(false);
    }
    var found := FindEocd(file);
    if found.None? {
      return Err(MissingEocd);
    }
    var e := found.value;
    forall f: nat | LastRecord(file, f)
      ensures f == e
    {
      LastRecordIsUnique(file, e, f);
    }
    return SigningBlockBefore(file, e);
  }

  /** In a written archive, a block is reported exactly when its magic ends where the directory starts. */
  lemma SigningBlockIsSeen(body: Bytes, d: Directory, version: U16, comment: Bytes)
    requires |body| < 0x1_0000_0000_0000_0000 && |comment| <= 0xFFFF
    requires d.offset <= |body| && d.offset < 0xFFFF_FFFF
    ensures var file, e := WriteZip(body, d, version, comment), |Front(body, d, version)|;
            RecordAt(file, e)
            && SigningBlockBefore(file, e)
               == Ok(d.offset >= 24 && body[d.offset - 16..d.offset] == Ascii("APK Sig Block 42"))
  {
    hide LeBytes, LeValue, EndRecord, Zip64Record, Locator, NumberAt;
    var front := Front(body, d, version);
    var file := WriteZip(body, d, version, comment);
    WrittenRecord(body, d, version, comment);
    EndRecordFields(front, d, comment);
    assert front[..|body|] == body;
    assert SIGNING_MAGIC == Ascii("APK Sig Block 42");
    if d.offset >= 24 {
      assert file[d.offset - 24..d.offset][8..] == body[d.offset - 16..d.offset];
    }
  }

  // ---- Names ------------------------------------------------------------------------------

  /** A central-directory entry, as the ZIP library presents it. */
  datatype Entry = Entry(rawName: Bytes, name: string, enclosed: Option<string>, isSymlink: bool)

  function NamesOf(entries: seq<Entry>): (r: seq<Bytes>)
    ensures |r| == |entries|
    ensures forall i :: 0 <= i < |r| ==> r[i] == entries[i].rawName
  {
    seq(|entries|, i requires 0 <= i < |entries| => entries[i].rawName)
  }

  predicate DistinctNames(names: seq<Bytes>) {
    forall i, j :: 0 <= i < j < |names| ==> names[i] != names[j]
  }

  /** The library indexes entries by name: a repeated name replaces the earlier entry. */
  function Collapse(entries: seq<Entry>): (r: seq<Entry>)
    ensures |r| <= |entries|
    ensures DistinctNames(NamesOf(r))
    ensures forall n :: n in NamesOf(r) <==> n in NamesOf(entries)
  {
    if entries == [] then []
    else
      var last := entries[|entries| - 1];
      var earlier := Collapse(entries[..|entries| - 1]);
      CollapseStep(entries, earlier, last);
      Insert(earlier, last)
  }

  function Insert(entries: seq<Entry>, entry: Entry): seq<Entry> {
    if entries == [] then [entry]
    else if entries[0].rawName == entry.rawName then [entry] + entries[1..]
    else [entries[0]] + Insert(entries[1..], entry)
  }

  lemma FirstName(first: Entry, rest: seq<Entry>)
    ensures NamesOf([first] + rest) == [first.rawName] + NamesOf(rest)
  {
  }

  lemma {:induction false} InsertNames(entries: seq<Entry>, entry: Entry)
    ensures NamesOf(Insert(entries, entry))
         == if entry.rawName in NamesOf(entries) then NamesOf(entries) else NamesOf(entries) + [entry.rawName]
  {
    if entries == [] {
    } else {
      FirstName(entries[0], entries[1..]);
      assert entries == [entries[0]] + entries[1..];
      if entries[0].rawName == entry.rawName {
        FirstName(entry, entries[1..]);
        assert NamesOf(entries)[0] == entry.rawName;
      } else {
        InsertNames(entries[1..], entry);
        FirstName(entries[0], Insert(entries[1..], entry));
      }
    }
  }

  lemma CollapseStep(entries: seq<Entry>, earlier: seq<Entry>, last: Entry)
    requires entries != [] && last == entries[|entries| - 1]
    requires |earlier| <= |entries| - 1 && DistinctNames(NamesOf(earlier))
    requires forall n :: n in NamesOf(earlier) <==> n in NamesOf(entries[..|entries| - 1])
    ensures |Insert(earlier, last)| <= |entries|
    ensures DistinctNames(NamesOf(Insert(earlier, last)))
    ensures forall n :: n in NamesOf(Insert(earlier, last)) <==> n in NamesOf(entries)
  {
    InsertNames(earlier, last);
    assert |NamesOf(Insert(earlier, last))| == |Insert(earlier, last)|;
    assert NamesOf(entries) == NamesOf(entries[..|entries| - 1]) + [last.rawName];
  }

  lemma CollapseGrows(entries: seq<Entry>, n: nat)
    requires n + 1 == |entries|
    ensures |Collapse(entries)|
         == |Collapse(entries[..n])| + if entries[n].rawName in NamesOf(entries[..n]) then 0 else 1
  {
    var earlier := Collapse(entries[..n]);
    InsertNames(earlier, entries[n]);
    assert |NamesOf(Insert(earlier, entries[n]))| == |Insert(earlier, entries[n])|;
  }

  lemma OneMoreName(names: seq<Bytes>, name: Bytes)
    ensures DistinctNames(names + [name]) <==> DistinctNames(names) && name !in names
  {
    var longer := names + [name];
    assert longer[|names|] == name && forall i :: 0 <= i < |names| ==> longer[i] == names[i];
  }

  /** Nothing was collapsed exactly when the names are pairwise distinct. */
  lemma {:induction false} CollapseCounts(entries: seq<Entry>)
    ensures |Collapse(entries)| == |entries| <==> DistinctNames(NamesOf(entries))
  {
    hide DistinctNames, Collapse;
    if entries == [] {
      NothingCollapses();
    } else {
      var n := |entries| - 1;
      CollapseCounts(entries[..n]);
      CollapseGrows(entries, n);
      OneMoreName(NamesOf(entries[..n]), entries[n].rawName);
      assert NamesOf(entries) == NamesOf(entries[..n]) + [entries[n].rawName];
    }
  }

  lemma NothingCollapses()
    ensures Collapse([]) == [] && DistinctNames(NamesOf([]))
  {
  }

  // ---- Structural validation --------------------------------------------------------------

  function Upper(s: string): (r: string)
    ensures |r| == |s|
  {
    seq(|s|, i requires 0 <= i < |s| => UpperCase(s[i]))
  }

  predicate EndsWith(s: string, suffix: string) {
    |suffix| <= |s| && s[|s| - |suffix|..] == suffix
  }

  predicate IsSigningMetadata(name: string) {
    var upper := Upper(name);
    "META-INF/" <= upper
    && (EndsWith(upper, ".RSA") || EndsWith(upper, ".DSA") || EndsWith(upper, ".EC") || EndsWith(upper, ".SF"))
  }

  predicate EntryAllowed(entry: Entry, rejectSigning: bool) {
    && entry.enclosed.Some?
    && !entry.isSymlink
    && !(rejectSigning && IsSigningMetadata(entry.name))
    && !EndsWith(Upper(entry.name), ".APK")
  }

  predicate IsManifest(entry: Entry) {
    entry.enclosed == Some("AndroidManifest.xml")
  }

  /** What an accepted archive is: counted truthfully, no name twice, no forbidden entry, one manifest. */
  ghost predicate AcceptableEntries(entries: seq<Entry>, declared: nat, rejectSigning: bool, maxEntries: nat) {
    && declared <= maxEntries
    && Collapse(entries) != [] && |Collapse(entries)| == declared
    && (forall i :: 0 <= i < |Collapse(entries)| ==> EntryAllowed(Collapse(entries)[i], rejectSigning))
    && exists i :: 0 <= i < |Collapse(entries)| && IsManifest(Collapse(entries)[i])
  }

  // ---- What the names mean ----------------------------------------------------------------

  lemma EndsWithIff(s: string, suffix: string)
    ensures EndsWith(s, suffix) <==> exists head :: s == head + suffix
  {
    if EndsWith(s, suffix) {
      assert s == s[..|s| - |suffix|] + suffix;
    }
  }

  /** Upper case changes the 26 letters and nothing else. */
  lemma UpperReads(s: string, i: nat)
    requires i < |s|
    ensures |Upper(s)| == |s|
    ensures forall k :: 0 <= k < 26 && s[i] == "abcdefghijklmnopqrstuvwxyz"[k] ==>
              Upper(s)[i] == "ABCDEFGHIJKLMNOPQRSTUVWXYZ"[k]
    ensures s[i] !in "abcdefghijklmnopqrstuvwxyz" ==> Upper(s)[i] == s[i]
  {
    var lower, upper := "abcdefghijklmnopqrstuvwxyz", "ABCDEFGHIJKLMNOPQRSTUVWXYZ";
    assert |lower| == 26 && |upper| == 26;
    if 'a' <= s[i] <= 'z' {
      assert lower[s[i] as int - 97] == s[i];
    }
  }

  /** A file of a JAR signature, whatever its case. */
  ghost predicate SigningName(name: string) {
    exists middle, suffix ::
      suffix in {".RSA", ".DSA", ".EC", ".SF"} && Upper(name) == "META-INF/" + middle + suffix
  }

  lemma NoOverlap(s: string, suffix: string)
    requires '/' !in suffix && "META-INF/" <= s && EndsWith(s, suffix)
    ensures |s| >= 9 + |suffix|
  {
    var at := |s| - |suffix|;
    assert |"META-INF/"| == 9 && s[8] == "META-INF/"[8] == '/';
    assert forall i :: at <= i < |s| ==> s[i] == suffix[i - at] && s[i] in suffix;
  }

  lemma SigningNameIff(name: string)
    ensures IsSigningMetadata(name) <==> SigningName(name)
  {
    hide Upper;
    var upper := Upper(name);
    assert |"META-INF/"| == 9;
    forall suffix | suffix in {".RSA", ".DSA", ".EC", ".SF"} && "META-INF/" <= upper && EndsWith(upper, suffix)
      ensures |upper| >= 9 + |suffix|
    {
      NoOverlap(upper, suffix);
    }
    if IsSigningMetadata(name) {
      var suffix :| suffix in {".RSA", ".DSA", ".EC", ".SF"} && EndsWith(upper, suffix);
      assert upper == "META-INF/" + upper[9..|upper| - |suffix|] + suffix;
    }
    if middle, suffix :| suffix in {".RSA", ".DSA", ".EC", ".SF"} && upper == "META-INF/" + middle + suffix {
      assert EndsWith(upper, suffix);
    }
  }

  /** What acceptance says, in the words of the format. */
  lemma AcceptanceMeans(entries: seq<Entry>, declared: nat, rejectSigning: bool, maxEntries: nat)
    requires AcceptableEntries(entries, declared, rejectSigning, maxEntries)
    ensures 1 <= |Collapse(entries)| == declared <= maxEntries
    ensures forall i :: 0 <= i < |Collapse(entries)| ==>
              var entry := Collapse(entries)[i];
              && entry.enclosed.Some? && !entry.isSymlink
              && !(exists head :: Upper(entry.name) == head + ".APK")
              && (rejectSigning ==> !SigningName(entry.name))
    ensures exists i :: 0 <= i < |Collapse(entries)| && Collapse(entries)[i].enclosed == Some("AndroidManifest.xml")
  {
    hide Collapse, Upper, SigningName, IsSigningMetadata, EndsWith;
    forall i | 0 <= i < |Collapse(entries)|
      ensures var entry := Collapse(entries)[i];
              && entry.enclosed.Some? && !entry.isSymlink
              && !(exists head :: Upper(entry.name) == head + ".APK")
              && (rejectSigning ==> !SigningName(entry.name))
    {
      EndsWithIff(Upper(Collapse(entries)[i].name), ".APK");
      SigningNameIff(Collapse(entries)[i].name);
    }
  }

  /** And nothing else is refused. */
  lemma NothingElseIsRefused(entries: seq<Entry>, declared: nat, rejectSigning: bool, maxEntries: nat, manifest: nat)
    requires 1 <= |Collapse(entries)| == declared <= maxEntries
    requires forall i :: 0 <= i < |Collapse(entries)| ==>
               var entry := Collapse(entries)[i];
               && entry.enclosed.Some? && !entry.isSymlink
               && !(exists head :: Upper(entry.name) == head + ".APK")
               && (rejectSigning ==> !SigningName(entry.name))
    requires manifest < |Collapse(entries)|
    requires Collapse(entries)[manifest].enclosed == Some("AndroidManifest.xml")
    ensures AcceptableEntries(entries, declared, rejectSigning, maxEntries)
  {
    hide Collapse, Upper, SigningName, IsSigningMetadata, EndsWith;
    forall i | 0 <= i < |Collapse(entries)|
      ensures EntryAllowed(Collapse(entries)[i], rejectSigning)
    {
      EndsWithIff(Upper(Collapse(entries)[i].name), ".APK");
      SigningNameIff(Collapse(entries)[i].name);
    }
    assert IsManifest(Collapse(entries)[manifest]);
  }

  method ValidateZip(file: Bytes, directory: Option<seq<Entry>>, rejectSigning: bool, maxEntries: nat)
    returns (r: Result<nat, ZipError>)
    ensures r.Ok? <==> DeclaredEntries(file).Ok? && directory.Some?
                       && AcceptableEntries(directory.value, DeclaredEntries(file).value, rejectSigning, maxEntries)
    ensures DeclaredEntries(file).Err? ==> r == DeclaredEntries(file)
  {
    hide DeclaredEntries, Collapse, EntryAllowed;
    var declared := DeclaredZipEntries(file);
    if declared.Err? {
      return declared;
    }
    if declared.value > maxEntries {
      return Err(TooManyEntries);
    }
    if directory.None? {
      return Err(NotZip);
    }
    var archive := Collapse(directory.value);
    if archive == [] {
      return Err(Empty);
    }
    if |archive| != declared.value {
      return Err(DuplicateNames);
    }
    var bad := CheckEntries(archive, rejectSigning);
    return if bad.Some? then Err(bad.value) else declared;
  }

  method CheckEntries(archive: seq<Entry>, rejectSigning: bool) returns (bad: Option<ZipError>)
    requires DistinctNames(NamesOf(archive))
    ensures bad.None? <==>
              && (forall i :: 0 <= i < |archive| ==> EntryAllowed(archive[i], rejectSigning))
              && (exists i :: 0 <= i < |archive| && IsManifest(archive[i]))
    ensures bad != Some(DuplicateNames)
  {
    hide Upper, EndsWith, IsSigningMetadata;
    var manifest := false;
    var names: set<Bytes> := {};
    for k := 0 to |archive|
      invariant forall i :: 0 <= i < k ==> EntryAllowed(archive[i], rejectSigning)
      invariant manifest <==> exists i :: 0 <= i < k && IsManifest(archive[i])
      invariant forall n :: n in names <==> exists i :: 0 <= i < k && NamesOf(archive)[i] == n
    {
      var entry := archive[k];
      assert NamesOf(archive)[k] == entry.rawName;
      if entry.rawName in names {
        return Some(DuplicateNames);
      }
      names := names + {entry.rawName};
      if entry.enclosed.None? {
        return Some(Traversal);
      }
      if entry.isSymlink {
        return Some(Symlink);
      }
      if IsManifest(entry) {
        manifest := true;
      }
      if rejectSigning && IsSigningMetadata(entry.name) {
        return Some(SigningMetadata);
      }
      if EndsWith(Upper(entry.name), ".APK") {
        return Some(NestedApk);
      }
    }
    return if manifest then None else Some(NoManifest);
  }

  /**
   In an accepted archive, names are pairwise distinct exactly when the end record tells the truth about
   their number; otherwise it declares fewer entries than there are.
   */
  lemma AcceptedNamesAreDistinctIff(entries: seq<Entry>, declared: nat, rejectSigning: bool, maxEntries: nat)
    requires AcceptableEntries(entries, declared, rejectSigning, maxEntries)
    ensures DistinctNames(NamesOf(entries)) <==> declared == |entries|
    ensures declared <= |entries|
  {
    CollapseCounts(entries);
  }
}
