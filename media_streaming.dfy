/**
 * The byte region the streaming endpoint answers for a video: the first
 * requested byte range (or the whole resource when none is requested),
 * clamped to at most one million bytes per response. This is the
 * single-range case of byte ranges (section 14.1.2 of RFC 9110) answered with
 * 206 Partial Content (section 15.3.7 of RFC 9110).
 */
module MediaController {

  /** The most bytes one response carries. */
  const MaxChunk: int := 1_000_000

  /** A requested range, its inclusive bounds already resolved against the resource length. */
  datatype ByteRange = ByteRange(start: int, end: int)

  /** The slice of the resource one response carries. */
  datatype Region = Region(offset: int, length: int)

  function Min(a: int, b: int): int {
    if a <= b then a else b
  }

  /** The slice the client asked for: its first range, or the whole resource. */
  function Requested(contentLength: int, ranges: seq<ByteRange>): Region {
    if ranges == [] then Region(0, contentLength)
    else Region(ranges[0].start, ranges[0].end - ranges[0].start + 1)
  }

  /**
   * The region answered for a resource of `contentLength` bytes: it starts
   * where the request starts and is the requested length cut down to
   * MaxChunk.
   */
  function StreamRegion(contentLength: int, ranges: seq<ByteRange>): (r: Region)
    ensures r.offset == Requested(contentLength, ranges).offset
    ensures r.length <= MaxChunk && r.length <= Requested(contentLength, ranges).length
    ensures r.length == MaxChunk || r.length == Requested(contentLength, ranges).length
  {
    if ranges == [] then
      var chunkSize := Min(1_000_000, contentLength);
      Region(0, chunkSize)
    else
      var start := ranges[0].start;
      var end := ranges[0].end;
      var rangeLength := Min(1_000_000, end - start + 1);
      Region(start, rangeLength)
  }

  /**
   * For bounds inside the resource the region lies inside it and is not
   * empty; without a range it is empty only for an empty resource.
   */
  lemma RegionWithinResource(contentLength: int, ranges: seq<ByteRange>)
    requires 0 <= contentLength
    requires ranges != [] ==> 0 <= ranges[0].start <= ranges[0].end < contentLength
    ensures var r := StreamRegion(contentLength, ranges);
      && 0 <= r.offset
      && r.offset + r.length <= contentLength
      && (r.length == 0 <==> ranges == [] && contentLength == 0)
  {
  }

  /** Ranges after the first are ignored. */
  lemma OnlyFirstRangeUsed(contentLength: int, first: ByteRange, rest: seq<ByteRange>)
    ensures StreamRegion(contentLength, [first] + rest) == StreamRegion(contentLength, [first])
  {
  }

  /** Four worked cases. */
  lemma StreamRegionExamples()
    ensures StreamRegion(5_000_000, []) == Region(0, 1_000_000)
    ensures StreamRegion(500_000, []) == Region(0, 500_000)
    ensures StreamRegion(5_000_000, [ByteRange(4_500_000, 4_999_999)]) == Region(4_500_000, 500_000)
    ensures StreamRegion(5_000_000, [ByteRange(0, 1_999_999)]) == Region(0, 1_000_000)
  {
  }

  /**
   * The regions a client receives when it asks, from `start` on, for the rest
   * of the resource again and again, each time from where the last answer
   * ended.
   */
  function FollowUps(contentLength: nat, start: nat): seq<Region>
    requires start <= contentLength
    decreases contentLength - start
  {
    if start == contentLength then []
    else
      var r := StreamRegion(contentLength, [ByteRange(start, contentLength - 1)]);
      [r] + FollowUps(contentLength, start + r.length)
  }

  /**
   * Those follow-up requests deliver the resource in consecutive slices of
   * MaxChunk bytes (the last one shorter), one request per started
   * million bytes.
   */
  lemma {:induction false} FollowUpsCoverResource(contentLength: nat, start: nat)
    requires start <= contentLength
    ensures var rs := FollowUps(contentLength, start);
      && |rs| == (contentLength - start + MaxChunk - 1) / MaxChunk
      && forall i :: 0 <= i < |rs| ==>
           && rs[i].offset == start + i * MaxChunk
           && rs[i].length == Min(MaxChunk, contentLength - rs[i].offset)
    decreases contentLength - start
  {
    if start < contentLength {
      var r := StreamRegion(contentLength, [ByteRange(start, contentLength - 1)]);
      var next := start + r.length;
      FollowUpsCoverResource(contentLength, next);
      var rs := FollowUps(contentLength, start);
      var tail := FollowUps(contentLength, next);
      assert rs == [r] + tail;
      if next < contentLength {
        assert r.length == MaxChunk;
      }
      forall i | 0 < i < |rs|
        ensures rs[i].offset == start + i * MaxChunk
      {
        assert rs[i] == tail[i - 1];
        assert tail[i - 1].offset == next + (i - 1) * MaxChunk;
      }
    }
  }
}
