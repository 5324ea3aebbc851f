/** Reading a plugin's output to its end while keeping only the first part of it. */
module BoundedRead {
  import opened Wrappers
  import opened ByteStrings

  const BUFFER: nat := 8192

  /**
   However the reads split the stream: the first limit bytes are kept, the rest is drained, and the
   excess is reported once, exactly when there is one.
   */
  method ReadBounded(stream: Bytes, limit: nat) returns (stored: Bytes, exceeded: bool, reports: nat)
    ensures stored == stream[..Minimum(limit, |stream|)]
    ensures exceeded <==> |stream| > limit
    ensures reports == if exceeded then 1 else 0
  {
    stored, exceeded, reports := [], false, 0;
    var position: nat := 0;
    while position < |stream|
      invariant position <= |stream|
      invariant stored == stream[..Minimum(limit, position)]
      invariant exceeded <==> position > limit
      invariant reports == if exceeded then 1 else 0
    {
      var count: nat :| 0 < count <= BUFFER && position + count <= |stream|;
      var remaining := if |stored| < limit then limit - |stored| else 0;
      var taken := Minimum(count, remaining);
      assert stream[..Minimum(limit, position)] + stream[position..position + taken]
          == stream[..Minimum(limit, position + count)];
      stored := stored + stream[position..position + taken];
      if count > remaining && !exceeded {
        exceeded := true;
        reports := reports + 1;
      }
      position := position + count;
    }
  }
}
