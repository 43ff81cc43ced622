/**
 * The Grape file format: a builder collects tagged sample streams and
 * interleaves them into one sample sequence, time slice by time slice;
 * the file is the header's text, one 0xFF delimiter byte, then every
 * sample as 4 big-endian bytes.
 *
 * Samples are kept as their 32-bit patterns (`f32::to_bits`), which is
 * what the byte layout stores. The header's text form comes from a
 * serialisation library and is a parameter here (`HeaderCodec`).
 */
module SpatialDataFormat {

  import Wrappers

  type u64 = x: int | 0 <= x < 0x1_0000_0000_0000_0000

  /** The bit pattern of one `f32` sample. */
  type Sample = bv32

  /** The pattern of `0.0f32`, used to extend an empty stream. */
  const ZERO: Sample := 0

  /** The pattern of the test value 12.07843112945556640625 (the bytes "AAAA"). */
  const A_FLOAT: Sample := 0x4141_4141

  const DELIMITER: bv8 := 0xFF

  datatype GrapeTag = X | Y | Z | Azimuth | Elevation | Range | Pitch | Yaw | Roll

  datatype GrapeFileHeader = GrapeFileHeader(nStreams: nat, sampleRate: u64, tags: seq<GrapeTag>)

  datatype GrapeFile = GrapeFile(header: GrapeFileHeader, samples: seq<Sample>)

  datatype GrapeFileError = UnequalSampleBufferLengths | NoDelimiter | HeaderError

  type Stream = (GrapeTag, seq<Sample>)

  // ---------------------------------------------------------------------
  // Interleaving

  function Tags(streams: seq<Stream>): (tags: seq<GrapeTag>)
    ensures |tags| == |streams| && forall j :: 0 <= j < |streams| ==> tags[j] == streams[j].0
  {
    seq(|streams|, j requires 0 <= j < |streams| => streams[j].0)
  }

  function Shortest(streams: seq<Stream>): (n: nat)
    requires streams != []
    ensures forall j :: 0 <= j < |streams| ==> n <= |streams[j].1|
    ensures exists j :: 0 <= j < |streams| && n == |streams[j].1|
    decreases |streams|
  {
    if |streams| == 1 then |streams[0].1|
    else
      var rest := Shortest(streams[1..]);
      if |streams[0].1| <= rest then |streams[0].1| else rest
  }

  function Longest(streams: seq<Stream>): (n: nat)
    requires streams != []
    ensures forall j :: 0 <= j < |streams| ==> |streams[j].1| <= n
    ensures exists j :: 0 <= j < |streams| && n == |streams[j].1|
    decreases |streams|
  {
    if |streams| == 1 then |streams[0].1|
    else
      var rest := Longest(streams[1..]);
      if |streams[0].1| >= rest then |streams[0].1| else rest
  }

  /** Sample `k` of a stream, or its last sample past its end (0.0 for an empty stream). */
  function Extended(s: seq<Sample>, k: nat): Sample {
    if k < |s| then s[k] else if s == [] then ZERO else s[|s| - 1]
  }

  /** Time slice `k`: sample `k` of every stream, in stream order. */
  function Frame(streams: seq<Stream>, k: nat): (f: seq<Sample>)
    ensures |f| == |streams|
  {
    seq(|streams|, j requires 0 <= j < |streams| => Extended(streams[j].1, k))
  }

  function Flatten(rows: seq<seq<Sample>>): seq<Sample>
    decreases |rows|
  {
    if rows == [] then [] else Flatten(rows[..|rows| - 1]) + rows[|rows| - 1]
  }

  /** The first `count` time slices, one after another. */
  function Interleave(streams: seq<Stream>, count: nat): seq<Sample> {
    Flatten(seq(count, k requires 0 <= k < count => Frame(streams, k)))
  }

  function TruncatedSamples(streams: seq<Stream>): seq<Sample> {
    if streams == [] then [] else Interleave(streams, Shortest(streams))
  }

  function ExtendedSamples(streams: seq<Stream>): seq<Sample> {
    if streams == [] then [] else Interleave(streams, Longest(streams))
  }

  lemma {:induction false} FlattenIndex(rows: seq<seq<Sample>>, n: nat, k: nat, j: nat)
    requires forall r :: 0 <= r < |rows| ==> |rows[r]| == n
    requires k < |rows| && j < n
    ensures |Flatten(rows)| == |rows| * n
    ensures k * n + j < |Flatten(rows)| && Flatten(rows)[k * n + j] == rows[k][j]
    decreases |rows|
  {
    var init := rows[..|rows| - 1];
    var last := rows[|rows| - 1];
    assert Flatten(rows) == Flatten(init) + last;
    assert |Flatten(init)| == |init| * n by { FlattenLength(init, n); }
    assert |rows| * n == |init| * n + n;
    if k < |init| {
      assert k * n + j < |init| * n by { RowBound(k, |init|, n, j); }
      assert Flatten(init)[k * n + j] == init[k][j] by { FlattenIndex(init, n, k, j); }
    } else {
      assert k * n == |init| * n;
    }
  }

  /** Position `j` of row `k` comes before the end of `m` rows of length `n`. */
  lemma RowBound(k: nat, m: nat, n: nat, j: nat)
    requires k < m && j < n
    ensures k * n + j < m * n
  {
    assert (k + 1) * n <= m * n;
  }

  lemma {:induction false} FlattenLength(rows: seq<seq<Sample>>, n: nat)
    requires forall r :: 0 <= r < |rows| ==> |rows[r]| == n
    ensures |Flatten(rows)| == |rows| * n
    decreases |rows|
  {
    if rows != [] {
      FlattenLength(rows[..|rows| - 1], n);
    }
  }

  /**
   * The interleaved sequence holds `count` slices of one sample per
   * stream: position `k * n + j` is sample `k` of stream `j`, extended
   * past that stream's end by its last sample.
   */
  lemma InterleaveIndex(streams: seq<Stream>, count: nat, k: nat, j: nat)
    requires k < count && j < |streams|
    ensures |Interleave(streams, count)| == count * |streams|
    ensures k * |streams| + j < |Interleave(streams, count)|
    ensures Interleave(streams, count)[k * |streams| + j] == Extended(streams[j].1, k)
  {
    var rows := seq(count, k requires 0 <= k < count => Frame(streams, k));
    FlattenIndex(rows, |streams|, k, j);
  }

  lemma InterleaveLength(streams: seq<Stream>, count: nat)
    ensures |Interleave(streams, count)| == count * |streams|
  {
    FlattenLength(seq(count, k requires 0 <= k < count => Frame(streams, k)), |streams|);
  }

  /** Truncating keeps `shortest * n` samples, and sample `k` of stream `j` is at `k * n + j`. */
  lemma TruncateLayout(streams: seq<Stream>, k: nat, j: nat)
    requires streams != [] && k < Shortest(streams) && j < |streams|
    ensures |TruncatedSamples(streams)| == Shortest(streams) * |streams|
    ensures k * |streams| + j < |TruncatedSamples(streams)|
    ensures TruncatedSamples(streams)[k * |streams| + j] == streams[j].1[k]
  {
    InterleaveIndex(streams, Shortest(streams), k, j);
  }

  /**
   * Extending keeps `longest * n` samples; past the end of stream `j` its
   * last sample is repeated, or 0.0 for an empty stream.
   */
  lemma ExtendLayout(streams: seq<Stream>, k: nat, j: nat)
    requires streams != [] && k < Longest(streams) && j < |streams|
    ensures |ExtendedSamples(streams)| == Longest(streams) * |streams|
    ensures k * |streams| + j < |ExtendedSamples(streams)|
    ensures k < |streams[j].1| ==> ExtendedSamples(streams)[k * |streams| + j] == streams[j].1[k]
    ensures k >= |streams[j].1| && streams[j].1 != [] ==>
      ExtendedSamples(streams)[k * |streams| + j] == streams[j].1[|streams[j].1| - 1]
    ensures streams[j].1 == [] ==> ExtendedSamples(streams)[k * |streams| + j] == ZERO
  {
    InterleaveIndex(streams, Longest(streams), k, j);
  }

  /** Streams made of one repeated sample interleave into that sample only. */
  lemma TruncatedUniform(streams: seq<Stream>, v: Sample)
    requires forall j, k :: 0 <= j < |streams| && 0 <= k < |streams[j].1| ==> streams[j].1[k] == v
    ensures forall i :: 0 <= i < |TruncatedSamples(streams)| ==> TruncatedSamples(streams)[i] == v
  {
    if streams != [] {
      var n := |streams|;
      var m := Shortest(streams);
      InterleaveLength(streams, m);
      forall i | 0 <= i < |TruncatedSamples(streams)|
        ensures TruncatedSamples(streams)[i] == v
      {
        SplitIndex(i, m, n);
        TruncateLayout(streams, i / n, i % n);
      }
    }
  }

  /** Position `i` of `m` rows of length `n` is column `i % n` of row `i / n`. */
  lemma SplitIndex(i: nat, m: nat, n: nat)
    requires n > 0 && i < m * n
    ensures 0 <= i / n < m && 0 <= i % n < n && (i / n) * n + i % n == i
  {
  }

  /** `lens.windows(2).all(|w| w[0] == w[1])`. */
  predicate NeighboursEqual(streams: seq<Stream>) {
    forall i :: 0 <= i < |streams| - 1 ==> |streams[i].1| == |streams[i + 1].1|
  }

  /** Neighbouring lengths agree exactly when all lengths agree; then truncating and extending agree. */
  lemma {:induction false} NeighboursEqualAll(streams: seq<Stream>)
    ensures NeighboursEqual(streams) <==> forall i, j :: 0 <= i < j < |streams| ==> |streams[i].1| == |streams[j].1|
    ensures NeighboursEqual(streams) && streams != [] ==> Shortest(streams) == Longest(streams)
    ensures NeighboursEqual(streams) ==> TruncatedSamples(streams) == ExtendedSamples(streams)
  {
    if NeighboursEqual(streams) {
      forall i, j | 0 <= i < j < |streams|
        ensures |streams[i].1| == |streams[j].1|
      {
        NeighboursChain(streams, i, j);
      }
      if streams != [] {
        var s := Shortest(streams);
        var l := Longest(streams);
        assert s == |streams[0].1| && l == |streams[0].1| by {
          var a :| 0 <= a < |streams| && s == |streams[a].1|;
          var b :| 0 <= b < |streams| && l == |streams[b].1|;
          if a > 0 { NeighboursChain(streams, 0, a); }
          if b > 0 { NeighboursChain(streams, 0, b); }
        }
      }
    }
  }

  lemma {:induction false} NeighboursChain(streams: seq<Stream>, i: nat, j: nat)
    requires NeighboursEqual(streams) && i <= j < |streams|
    ensures |streams[i].1| == |streams[j].1|
    decreases j - i
  {
    if i < j {
      NeighboursChain(streams, i + 1, j);
    }
  }

  // ---------------------------------------------------------------------
  // The builder

  class GrapeFileBuilder {
    var nStreams: nat
    var sampleRate: u64
    var streams: seq<Stream>

    ghost predicate Valid()
      reads this
    {
      nStreams == |streams|
    }

    constructor ()
      ensures Valid() && nStreams == 0 && sampleRate == 0 && streams == []
    {
      nStreams := 0;
      sampleRate := 0;
      streams := [];
    }

    method SetSampleRate(sampleRate: u64)
      modifies this
      ensures this.sampleRate == sampleRate
      ensures nStreams == old(nStreams) && streams == old(streams)
    {
      this.sampleRate := sampleRate;
    }

    method AddStream(stream: seq<Sample>, tag: GrapeTag)
      requires Valid()
      modifies this
      ensures Valid()
      ensures streams == old(streams) + [(tag, stream)] && nStreams == old(nStreams) + 1
      ensures sampleRate == old(sampleRate)
    {
      streams := streams + [(tag, stream)];
      nStreams := nStreams + 1;
    }

    method ClearStreams()
      modifies this
      ensures Valid() && streams == [] && nStreams == 0 && sampleRate == old(sampleRate)
    {
      streams := [];
      nStreams := 0;
    }

    function Header(): (h: GrapeFileHeader)
      reads this
    {
      GrapeFileHeader(nStreams, sampleRate, Tags(streams))
    }

    /** `build_truncate`: as many slices as the shortest stream has samples. */
    method BuildTruncate() returns (f: GrapeFile)
      requires Valid()
      ensures f.header == Header()
      ensures f.samples == TruncatedSamples(streams)
    {
      var samples := [];
      if |streams| != 0 {
        var shortest := Shortest(streams);
        samples := Fill(streams, shortest);
      }
      f := GrapeFile(Header(), samples);
    }

    /** `build_extend`: as many slices as the longest stream has samples. */
    method BuildExtend() returns (f: GrapeFile)
      requires Valid()
      ensures f.header == Header()
      ensures f.samples == ExtendedSamples(streams)
    {
      var samples := [];
      if |streams| != 0 {
        var longest := Longest(streams);
        samples := Fill(streams, longest);
      }
      f := GrapeFile(Header(), samples);
    }

    /** `build`: the truncated file when all streams have the same length, an error otherwise. */
    method Build() returns (r: Wrappers.Result<GrapeFile, GrapeFileError>)
      requires Valid()
      ensures r.Ok? <==> NeighboursEqual(streams)
      ensures r.Ok? ==> r.value == GrapeFile(Header(), TruncatedSamples(streams))
      ensures r.Err? ==> r.error == UnequalSampleBufferLengths
    {
      var i := 0;
      while i < |streams| - 1
        invariant 0 <= i <= if |streams| == 0 then 0 else |streams| - 1
        invariant forall k :: 0 <= k < i ==> |streams[k].1| == |streams[k + 1].1|
      {
        if |streams[i].1| != |streams[i + 1].1| {
          return Wrappers.Err(UnequalSampleBufferLengths);
        }
        i := i + 1;
      }
      var f := BuildTruncate();
      r := Wrappers.Ok(f);
    }
  }

  /**
   * The nested index loops of both builds: `count` slices, each pushing
   * sample `k` of every stream in order (extended past a stream's end).
   */
  method Fill(streams: seq<Stream>, count: nat) returns (samples: seq<Sample>)
    ensures samples == Interleave(streams, count)
  {
    ghost var rows := seq(count, k requires 0 <= k < count => Frame(streams, k));
    samples := [];
    var k := 0;
    while k < count
      invariant 0 <= k <= count
      invariant samples == Flatten(rows[..k])
    {
      var j := 0;
      ghost var before := samples;
      while j < |streams|
        invariant 0 <= j <= |streams|
        invariant samples == before + Frame(streams, k)[..j]
      {
        var s := streams[j].1;
        samples := samples + [if k < |s| then s[k] else if s == [] then ZERO else s[|s| - 1]];
        j := j + 1;
      }
      assert Frame(streams, k)[..j] == rows[k];
      assert rows[..k + 1][..k] == rows[..k];
      k := k + 1;
    }
    assert rows[..k] == rows;
  }

  // ---------------------------------------------------------------------
  // The byte layout

  /** The header's text form and its parser, as the serialisation library provides them. */
  datatype HeaderCodec = HeaderCodec(encode: GrapeFileHeader -> seq<bv8>, decode: seq<bv8> -> Wrappers.Option<GrapeFileHeader>)

  /**
   * What the layout relies on: parsing the text of a header gives that
   * header back, and the text (UTF-8) never contains the byte 0xFF.
   */
  ghost predicate Lawful(c: HeaderCodec) {
    forall h :: c.decode(c.encode(h)) == Wrappers.Some(h) && DELIMITER !in c.encode(h)
  }

  /** `f32::to_be_bytes` on the sample's bit pattern. */
  function SampleBytes(s: Sample): (b: seq<bv8>)
    ensures |b| == 4
  {
    [(s >> 24) as bv8, ((s >> 16) & 0xFF) as bv8, ((s >> 8) & 0xFF) as bv8, (s & 0xFF) as bv8]
  }

  /** `f32::from_be_bytes`. */
  function SampleOf(b: seq<bv8>): Sample
    requires |b| == 4
  {
    (b[0] as bv32 << 24) | (b[1] as bv32 << 16) | (b[2] as bv32 << 8) | b[3] as bv32
  }

  lemma SampleRoundTrip(s: Sample)
    ensures SampleOf(SampleBytes(s)) == s
  {
  }

  /** Any four bytes are the big-endian form of the sample read from them. */
  lemma BytesRoundTrip(b: seq<bv8>)
    requires |b| == 4
    ensures SampleBytes(SampleOf(b)) == b
  {
  }

  function EncodeSamples(ss: seq<Sample>): (b: seq<bv8>)
    ensures |b| == 4 * |ss|
    decreases |ss|
  {
    if ss == [] then [] else SampleBytes(ss[0]) + EncodeSamples(ss[1..])
  }

  /** `to_file`'s bytes: header text, the delimiter, the samples. */
  function ToBytes(c: HeaderCodec, f: GrapeFile): (b: seq<bv8>)
    ensures |b| == |c.encode(f.header)| + 1 + 4 * |f.samples|
    ensures Lawful(c) ==> FirstDelimiter(b) == Wrappers.Some(|c.encode(f.header)|)
  {
    var h := c.encode(f.header);
    var b := h + [DELIMITER] + EncodeSamples(f.samples);
    assert Lawful(c) ==> FirstDelimiter(b) == Wrappers.Some(|h|) by {
      if Lawful(c) {
        assert DELIMITER !in h;
        assert b[|h|] == DELIMITER && b[..|h|] == h;
      }
    }
    b
  }

  /** The samples of `chunks(4)`; a short last chunk panics on `bs[0..4]` (None). */
  function DecodeSamples(b: seq<bv8>): (r: Wrappers.Option<seq<Sample>>)
    ensures r.Some? <==> |b| % 4 == 0
    ensures r.Some? ==> 4 * |r.value| == |b| && EncodeSamples(r.value) == b
    decreases |b|
  {
    if b == [] then Wrappers.Some([])
    else if |b| < 4 then Wrappers.None
    else match DecodeSamples(b[4..])
      case None => Wrappers.None
      case Some(rest) =>
        assert EncodeSamples([SampleOf(b[..4])] + rest) == b by {
          BytesRoundTrip(b[..4]);
          assert ([SampleOf(b[..4])] + rest)[1..] == rest;
          assert b == b[..4] + b[4..];
        }
        Wrappers.Some([SampleOf(b[..4])] + rest)
  }

  /** `position(|e| *e == 0xFF)`. */
  function FirstDelimiter(b: seq<bv8>): (r: Wrappers.Option<nat>)
    ensures r.None? <==> DELIMITER !in b
    ensures r.Some? ==> r.value < |b| && b[r.value] == DELIMITER && DELIMITER !in b[..r.value]
    decreases |b|
  {
    if b == [] then Wrappers.None
    else if b[0] == DELIMITER then Wrappers.Some(0)
    else match FirstDelimiter(b[1..])
      case None => Wrappers.None
      case Some(i) => assert b[..i + 1] == [b[0]] + b[1..][..i]; Wrappers.Some(i + 1)
  }

  datatype Decoded = Decoded(file: GrapeFile) | Failed(error: GrapeFileError) | Panicked

  /** `from_file` on the bytes read. */
  function FromBytes(c: HeaderCodec, b: seq<bv8>): (r: Decoded)
    ensures r == Failed(NoDelimiter) <==> DELIMITER !in b
    ensures DELIMITER in b ==> var i := FirstDelimiter(b).value;
      && (r == Failed(HeaderError) <==> c.decode(b[..i]).None?)
      && (r.Panicked? <==> c.decode(b[..i]).Some? && (|b| - i - 1) % 4 != 0)
      && (r.Decoded? ==> c.decode(b[..i]) == Wrappers.Some(r.file.header) && EncodeSamples(r.file.samples) == b[i + 1..])
  {
    match FirstDelimiter(b)
    case None => Failed(NoDelimiter)
    case Some(i) =>
      match c.decode(b[..i])
      case None => Failed(HeaderError)
      case Some(header) =>
        match DecodeSamples(b[i + 1..])
        case None => Panicked
        case Some(samples) => Decoded(GrapeFile(header, samples))
  }

  lemma {:induction false} SamplesRoundTrip(ss: seq<Sample>)
    ensures DecodeSamples(EncodeSamples(ss)) == Wrappers.Some(ss)
    decreases |ss|
  {
    if ss != [] {
      var b := EncodeSamples(ss);
      assert b[..4] == SampleBytes(ss[0]) && b[4..] == EncodeSamples(ss[1..]);
      SamplesRoundTrip(ss[1..]);
      SampleRoundTrip(ss[0]);
      assert [ss[0]] + ss[1..] == ss;
    }
  }

  /** Sample `k` is stored as bytes `4k .. 4k+4` of the sample section, most significant first. */
  lemma {:induction false} EncodeSamplesIndex(ss: seq<Sample>, k: nat)
    requires k < |ss|
    ensures EncodeSamples(ss)[4 * k..4 * k + 4] == SampleBytes(ss[k])
    decreases k
  {
    if k > 0 {
      EncodeSamplesIndex(ss[1..], k - 1);
      assert EncodeSamples(ss)[4..] == EncodeSamples(ss[1..]);
    }
  }

  /** Decoding what was encoded gives the same file, whatever the samples. */
  lemma FileRoundTrip(c: HeaderCodec, f: GrapeFile)
    requires Lawful(c)
    ensures FromBytes(c, ToBytes(c, f)) == Decoded(f)
  {
    var h := c.encode(f.header);
    var b := ToBytes(c, f);
    assert DELIMITER !in h && c.decode(h) == Wrappers.Some(f.header);
    assert FirstDelimiter(b) == Wrappers.Some(|h|) by {
      assert b[|h|] == DELIMITER;
      assert b[..|h|] == h;
    }
    assert b[..|h|] == h && b[|h| + 1..] == EncodeSamples(f.samples);
    SamplesRoundTrip(f.samples);
  }

  /**
   * The round trip of the format's own test: two streams of four test
   * samples at rate 1000 build without error and read back unchanged.
   */
  method WriteAndRead(c: HeaderCodec) returns (data: GrapeFile, readData: Decoded)
    requires Lawful(c)
    ensures data.header == GrapeFileHeader(2, 1000, [X, Y]) && |data.samples| == 8
    ensures forall i :: 0 <= i < |data.samples| ==> data.samples[i] == A_FLOAT
    ensures readData == Decoded(data)
  {
    var builder := new GrapeFileBuilder();
    builder.SetSampleRate(1000);
    var stream := [A_FLOAT, A_FLOAT, A_FLOAT, A_FLOAT];
    builder.AddStream(stream, X);
    builder.AddStream(stream, Y);
    var built := builder.Build();
    assert NeighboursEqual(builder.streams);
    data := built.value;
    assert Tags(builder.streams) == [X, Y];
    assert |data.samples| == 8 by {
      assert Shortest(builder.streams) == 4;
      InterleaveIndex(builder.streams, 4, 0, 0);
    }
    assert forall i :: 0 <= i < |data.samples| ==> data.samples[i] == A_FLOAT by {
      TruncatedUniform(builder.streams, A_FLOAT);
    }
    readData := FromBytes(c, ToBytes(c, data));
    FileRoundTrip(c, data);
  }
}
