/**
 * Reading a VGC container: the header check (ensure_ok) and the framing of
 * the eight length-prefixed streams (find_vgc_streams).
 */
module Container {
  import opened Wrappers
  import opened VgcTypes

  /** "VGC" in ASCII. */
  const Magic: seq<Byte> := [0x56, 0x47, 0x43]

  /** Bytes 4..6 of the header are skipped; the first stream starts here. */
  const FirstStreamOffset: nat := 7

  /** Bit 7 of the flags byte (byte 3) marks a Huffman-compressed file. */
  predicate HuffmanFlag(flags: Byte)
  {
    (flags as bv8) & 0x80 != 0
  }

  /**
   * ensure_ok: the file is at least 4 bytes long, starts with "VGC" and is
   * not compressed; the three tests are made in that order, so the first one
   * that fails names the error.
   */
  function CheckHeader(data: seq<Byte>): (r: Outcome<Error>)
    ensures r == Fail(TooSmall) <==> |data| < 4
    ensures r == Fail(BadMagic) <==> |data| >= 4 && data[..3] != Magic
    ensures r == Fail(Compressed) <==> |data| >= 4 && data[..3] == Magic && data[3] >= 128
    ensures r == Pass <==> |data| >= 4 && data[..3] == Magic && data[3] < 128
  {
    if |data| < 4 then Fail(TooSmall)
    else if data[0] != 0x56 || data[1] != 0x47 || data[2] != 0x43 then Fail(BadMagic)
    else if HuffmanFlag(data[3]) then Fail(Compressed)
    else Pass
  }

  /**
   * The length of the segment that starts at `at`: the little-endian 16-bit
   * field there, plus 4. The source combines the two bytes with `|` and `<<`;
   * the bits do not overlap, so that is the sum below.
   */
  function SegmentLength(data: seq<Byte>, at: nat): (n: nat)
    requires at + 1 < |data|
    ensures 4 <= n < 0x10004
  {
    (data[at] as int) + (data[at + 1] as int) * 256 + 4
  }

  /**
   * The offsets of `count` consecutive segments starting at `at`, followed by
   * the offset just past the last one. Reading a length field that lies
   * (partly) beyond the data is the source's IndexError: Truncated.
   */
  function Frame(data: seq<Byte>, at: nat, count: nat): (r: Result<seq<nat>, Error>)
    ensures r.Failure? ==> r.error == Truncated
    ensures r.Success? ==> |r.value| == count + 1 && r.value[0] == at
    decreases count
  {
    if count == 0 then Success([at])
    else if at + 1 >= |data| then Failure(Truncated)
    else Prepend([at], Frame(data, at + SegmentLength(data, at), count - 1))
  }

  /**
   * What a correct framing is: `count` segments, each length field inside the
   * data, each segment starting where the previous one ends.
   */
  ghost predicate IsFrame(data: seq<Byte>, at: nat, count: nat, starts: seq<nat>)
  {
    && |starts| == count + 1
    && starts[0] == at
    && forall i :: 0 <= i < count ==> Linked(data, starts, i)
  }

  /** Segment i's length field is inside the data, and segment i + 1 starts where it ends. */
  ghost predicate Linked(data: seq<Byte>, starts: seq<nat>, i: nat)
    requires i + 1 < |starts|
  {
    starts[i] + 1 < |data| && starts[i + 1] == starts[i] + SegmentLength(data, starts[i])
  }

  /** Frame succeeds with exactly the offsets that form a correct framing. */
  lemma FrameCharacterization(data: seq<Byte>, at: nat, count: nat, starts: seq<nat>)
    ensures Frame(data, at, count) == Success(starts) <==> IsFrame(data, at, count, starts)
  {
    if Frame(data, at, count) == Success(starts) {
      FrameSound(data, at, count);
    }
    if IsFrame(data, at, count, starts) {
      FrameComplete(data, at, count, starts);
    }
  }

  /** What Frame returns is a correct framing. */
  lemma {:induction false} FrameSound(data: seq<Byte>, at: nat, count: nat)
    requires Frame(data, at, count).Success?
    ensures IsFrame(data, at, count, Frame(data, at, count).value)
    decreases count
  {
    if count > 0 {
      var starts := Frame(data, at, count).value;
      var next := at + SegmentLength(data, at);
      FrameSound(data, next, count - 1);
      var rest := Frame(data, next, count - 1).value;
      assert starts == [at] + rest;
      forall i | 0 <= i < count
        ensures Linked(data, starts, i)
      {
        if i > 0 {
          assert Linked(data, rest, i - 1);
          assert starts[i] == rest[i - 1] && starts[i + 1] == rest[i];
        }
      }
    }
  }

  /** A correct framing is what Frame returns: there is only one. */
  lemma {:induction false} FrameComplete(data: seq<Byte>, at: nat, count: nat, starts: seq<nat>)
    requires IsFrame(data, at, count, starts)
    ensures Frame(data, at, count) == Success(starts)
    decreases count
  {
    if count == 0 {
      assert starts == [at];
    } else {
      assert Linked(data, starts, 0);
      var next := at + SegmentLength(data, at);
      var rest := starts[1..];
      assert IsFrame(data, next, count - 1, rest) by {
        forall i | 0 <= i < count - 1
          ensures Linked(data, rest, i)
        {
          assert Linked(data, starts, i + 1);
          assert rest[i] == starts[i + 1] && rest[i + 1] == starts[i + 2];
        }
        assert rest[0] == starts[1];
      }
      FrameComplete(data, next, count - 1, rest);
      assert starts == [at] + rest;
    }
  }

  /**
   * Python's data[a:b]: both ends are cut back to the length of the data, and
   * an end before the start gives nothing.
   */
  function Slice(data: seq<Byte>, a: nat, b: nat): (s: seq<Byte>)
    ensures a <= b <= |data| ==> s == data[a..b]
    ensures a <= |data| < b ==> s == data[a..]
    ensures b <= a ==> s == []
  {
    var lo := if a < |data| then a else |data|;
    var hi := if b < lo then lo else if b < |data| then b else |data|;
    data[lo..hi]
  }

  /** Stream i is the bytes from the i-th offset to the next. */
  function StreamsAt(data: seq<Byte>, starts: seq<nat>): (streams: seq<Stream>)
    requires |starts| == StreamCount + 1
    ensures |streams| == StreamCount && Indexed(streams)
  {
    seq(StreamCount, i requires 0 <= i < StreamCount => Stream(i, Slice(data, starts[i], starts[i + 1])))
  }

  /** find_vgc_streams, as a value: the eight streams, or Truncated. */
  function SplitStreams(data: seq<Byte>): (r: Result<seq<Stream>, Error>)
    ensures r.Success? ==> |r.value| == StreamCount && Indexed(r.value)
    ensures r.Failure? ==> r.error == Truncated
  {
    match Frame(data, FirstStreamOffset, StreamCount)
    case Success(starts) => Success(StreamsAt(data, starts))
    case Failure(e) => Failure(e)
  }

  /**
   * find_vgc_streams: walks the eight segments from offset 7, recording each
   * start and finally the end offset, then cuts the data at those offsets.
   */
  method FindStreams(data: seq<Byte>) returns (r: Result<seq<Stream>, Error>)
    ensures r == SplitStreams(data)
    ensures r.Success? ==> |r.value| == StreamCount && Indexed(r.value)
  {
    var starts: seq<nat> := [];
    var index: nat := FirstStreamOffset;
    match Frame(data, index, StreamCount) {
      case Success(whole) => assert [] + whole == whole;
      case Failure(_) =>
    }
    for i := 0 to StreamCount
      invariant |starts| == i
      invariant Frame(data, FirstStreamOffset, StreamCount) == Prepend(starts, Frame(data, index, StreamCount - i))
    {
      starts := starts + [index];
      if index + 1 >= |data| {
        return Failure(Truncated);
      }
      var n: int := (data[index] as int) + (data[index + 1] as int) * 256;
      n := n + 4;
      assert n == SegmentLength(data, index);
      assert Frame(data, index, StreamCount - i) == Prepend([index], Frame(data, index + n, StreamCount - i - 1));
      PrependTwice(starts[..i], [index], Frame(data, index + n, StreamCount - i - 1));
      assert starts[..i] + [index] == starts;
      index := index + n;
    }
    starts := starts + [index];
    return Success(StreamsAt(data, starts));
  }

  /** The offsets that SplitStreams cut the data at, when it succeeds. */
  lemma StreamsFromFrame(data: seq<Byte>) returns (starts: seq<nat>)
    requires SplitStreams(data).Success?
    ensures Frame(data, FirstStreamOffset, StreamCount) == Success(starts)
    ensures IsFrame(data, FirstStreamOffset, StreamCount, starts)
    ensures SplitStreams(data).value == StreamsAt(data, starts)
  {
    starts := Frame(data, FirstStreamOffset, StreamCount).value;
    FrameSound(data, FirstStreamOffset, StreamCount);
  }

  /**
   * Each stream keeps its own length field and is exactly as long as that
   * field says plus 4, except that the last one is cut short (silently, as a
   * Python slice is) when the data ends before it does.
   */
  lemma StreamBytes(data: seq<Byte>, starts: seq<nat>, i: nat)
    requires IsFrame(data, FirstStreamOffset, StreamCount, starts)
    requires i < StreamCount
    ensures starts[i] + 1 < |data|
    ensures i + 1 < StreamCount ==> starts[i + 1] <= |data|
    ensures starts[i + 1] <= |data| ==> |StreamsAt(data, starts)[i].data| == SegmentLength(data, starts[i])
    ensures starts[i + 1] > |data| ==> StreamsAt(data, starts)[i].data == data[starts[i]..]
    ensures |StreamsAt(data, starts)[i].data| >= 2
    ensures StreamsAt(data, starts)[i].data[0] == data[starts[i]]
    ensures StreamsAt(data, starts)[i].data[1] == data[starts[i] + 1]
  {
    assert Linked(data, starts, i);
    if i + 1 < StreamCount {
      assert Linked(data, starts, i + 1);
    }
    var s := StreamsAt(data, starts)[i].data;
    assert s == Slice(data, starts[i], starts[i + 1]);
    assert |s| >= 2;
  }

  /**
   * When the data holds all eight segments, the streams laid end to end are
   * exactly the bytes from offset 7 to the end of the last segment.
   */
  lemma StreamsTile(data: seq<Byte>, starts: seq<nat>)
    requires IsFrame(data, FirstStreamOffset, StreamCount, starts)
    requires starts[StreamCount] <= |data|
    ensures FirstStreamOffset + 4 * StreamCount <= starts[StreamCount]
    ensures Payload(StreamsAt(data, starts)) == Slice(data, FirstStreamOffset, starts[StreamCount])
  {
    var streams := StreamsAt(data, starts);
    var k := StreamCount;
    while k > 0
      invariant 0 <= k <= StreamCount
      invariant starts[k] + 4 * (StreamCount - k) <= starts[StreamCount] <= |data|
      invariant Payload(streams[k..]) == data[starts[k]..starts[StreamCount]]
    {
      k := k - 1;
      assert Linked(data, starts, k);
      TileStep(data, starts, streams, k);
    }
    assert streams[0..] == streams;
  }

  /** Stream k followed by the streams after it covers the data from starts[k] on. */
  lemma TileStep(data: seq<Byte>, starts: seq<nat>, streams: seq<Stream>, k: nat)
    requires |starts| == StreamCount + 1 && k < StreamCount
    requires streams == StreamsAt(data, starts)
    requires starts[k] <= starts[k + 1] <= starts[StreamCount] <= |data|
    requires Payload(streams[k + 1..]) == data[starts[k + 1]..starts[StreamCount]]
    ensures Payload(streams[k..]) == data[starts[k]..starts[StreamCount]]
  {
    PayloadCons(streams[k..]);
    assert streams[k..][1..] == streams[k + 1..];
    SliceSplit(data, starts[k], starts[k + 1], starts[StreamCount]);
  }

  lemma SliceSplit(s: seq<Byte>, a: nat, b: nat, c: nat)
    requires a <= b <= c <= |s|
    ensures s[a..c] == s[a..b] + s[b..c]
  {
  }
}
