/** Looking for the APK Signing Block magic in a file that is read piece by piece. */
module Scan {
  import opened ByteStrings
  import ApkZip

  const CHUNK: nat := 64 * 1024

  /** A window of the new data that reaches back needle-length minus one bytes sees every new match. */
  lemma OverlapSuffices(seen: Bytes, overlap: Bytes, chunk: Bytes, needle: Bytes)
    requires needle != [] && !Contains(seen, needle)
    requires |overlap| <= |seen| && seen[|seen| - |overlap|..] == overlap
    requires |overlap| == |seen| || |overlap| >= |needle| - 1
    ensures Contains(seen + chunk, needle) <==> Contains(overlap + chunk, needle)
  {
    var skip := |seen| - |overlap|;
    var all, window := seen + chunk, overlap + chunk;
    assert all[skip..] == window;
    if i :| 0 <= i <= |all| && At(all, i, needle) {
      if i + |needle| <= |seen| {
        assert seen[i..i + |needle|] == all[i..i + |needle|];
        assert At(seen, i, needle);
      } else {
        assert window[i - skip..i - skip + |needle|] == all[i..i + |needle|];
        assert At(window, i - skip, needle);
      }
    }
    if i :| 0 <= i <= |window| && At(window, i, needle) {
      assert all[i + skip..i + skip + |needle|] == window[i..i + |needle|];
      assert At(all, i + skip, needle);
    }
  }

  /** Nothing was found in the part read, and the window onto it reaches back far enough. */
  ghost predicate Scanned(file: Bytes, position: nat, overlap: Bytes, needle: Bytes) {
    && |overlap| <= position <= |file|
    && file[position - |overlap|..position] == overlap
    && (|overlap| == position || |overlap| >= |needle| - 1)
    && !Contains(file[..position], needle)
  }

  lemma ReadChunk(file: Bytes, position: nat, overlap: Bytes, count: nat, needle: Bytes)
    requires needle != [] && position + count <= |file| && Scanned(file, position, overlap, needle)
    ensures var window := overlap + file[position..position + count];
            && (Contains(window, needle) ==> Contains(file, needle))
            && (!Contains(window, needle) ==> Scanned(file, position + count, window, needle))
  {
    hide Contains;
    var seen, chunk := file[..position], file[position..position + count];
    assert |overlap| <= |seen| && seen[|seen| - |overlap|..] == overlap;
    OverlapSuffices(seen, overlap, chunk, needle);
    assert seen + chunk == file[..position + count];
    assert file[position - |overlap|..position + count] == overlap + chunk;
    if Contains(overlap + chunk, needle) {
      PrefixContains(file, position + count, needle);
    }
  }

  lemma DropFront(file: Bytes, position: nat, window: Bytes, needle: Bytes)
    requires needle != [] && |window| >= |needle| && Scanned(file, position, window, needle)
    ensures Scanned(file, position, window[|window| - (|needle| - 1)..], needle)
  {
  }

  lemma NothingScanned(file: Bytes, needle: Bytes)
    requires needle != []
    ensures Scanned(file, 0, [], needle)
  {
  }

  lemma AllScanned(file: Bytes, overlap: Bytes, needle: Bytes)
    requires Scanned(file, |file|, overlap, needle)
    ensures !Contains(file, needle)
  {
    assert file[..|file|] == file;
  }

  lemma PrefixContains(s: Bytes, n: nat, needle: Bytes)
    requires n <= |s| && Contains(s[..n], needle)
    ensures Contains(s, needle)
  {
    var i :| 0 <= i <= n && At(s[..n], i, needle);
    assert s[i..i + |needle|] == s[..n][i..i + |needle|];
    assert At(s, i, needle);
  }

  /** The scan finds the magic exactly when it occurs, however the reads split the file. */
  method ContainsApkSigningBlock(file: Bytes) returns (found: bool)
    ensures found <==> Contains(file, ApkZip.SIGNING_MAGIC)
  {
    hide Contains, Scanned;
    var magic := ApkZip.SIGNING_MAGIC;
    var overlap: Bytes := [];
    var position: nat := 0;
    NothingScanned(file, magic);
    while true
      invariant position <= |file| && Scanned(file, position, overlap, magic)
      decreases |file| - position
    {
      if position == |file| {
        AllScanned(file, overlap, magic);
        return false;
      }
      var count: nat :| 0 < count <= CHUNK && position + count <= |file|;
      ReadChunk(file, position, overlap, count, magic);
      overlap := overlap + file[position..position + count];
      position := position + count;
      if Contains(overlap, magic) {
        return true;
      }
      if |overlap| >= |magic| {
        DropFront(file, position, overlap, magic);
        overlap := overlap[|overlap| - (|magic| - 1)..];
      }
    }
  }
}
