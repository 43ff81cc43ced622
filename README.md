# CyberGrape host data path, modelled in Dafny

CyberGrape tracks Bluetooth tags with two u-blox antennas and turns their
readings into spatial-audio metadata. This project models the host-side data
path of that system and proves properties of the model:

- **Line decoder** (`hardware_message_decoder.dfy`): the nom grammar for the
  two ASCII messages the antennas send. `+UUDF:` is a measurement and
  `+UUDFP:` a heartbeat. Each nom combinator is a function over `string`
  returning `Done(value, rest)`, `Fail(error)` or `Panic`. The main results:
  - writing an event out and parsing it back gives the same event;
  - the two tags exclude each other;
  - an id whose hex run is not 12 digits long aborts the program.
  - an accepted measurement line holds its ten fields in a fixed order, each
    spelling the value the event carries (`UudfShape`).
- **Update buffer** (`hdm.dfy`): converts a measurement into an `Update` and
  keeps a deque. Pushing and popping both happen at the front, so the buffer
  is a stack (last in, first out).
- **Update accumulator** (`update_accumulator.dfy`): drains the buffer into
  one window per (antenna, tag) pair. It reports one mean update per window,
  over its 50 most recent entries, then trims every window to 50.
- **Sphericalizer** (`sphericalizer.dfy`):
  - checks that there are exactly two readings per configured tag;
  - sorts the readings by tag and pairs them;
  - picks the back-antenna and front-antenna reading of each pair;
  - scales, reflects, rotates and wraps the angles into one `BufferMetadata`
    per tag.
- **Time-domain buffer** (`time_domain_buffer.dfy`): an append-only log of
  rows, each exactly as wide as the number of tags.
- **Grape file format** (`spatial_data_format.dfy`):
  - a builder interleaves tagged sample streams under three policies:
    truncate, extend and strict;
  - the byte layout is the header text, one `0xFF` byte, then 4 big-endian
    bytes per sample.
- **TransposeIter** (`transpose.dfy`): turns a list of sequences into rows,
  one element of each sequence per row.

`wrappers.dfy` holds `Option` and `Result`. `hardware_data_manager.dfy` holds
the `Update` record. `saf.dfy` holds the four fields of `BufferMetadata`.

Three facts about the code that a reader might not expect:

- The buffer pushes and pops at the front, so it is a stack
  (`Hdm.LastInFirstOut`, `Hdm.AddAllReverses`).
- The builder's sample rate starts at 0
  (`SpatialDataFormat.GrapeFileBuilder.constructor`).
- `get_status` averages the windows before trimming them, which gives the
  same means as trimming first (`UpdateAccumulator.MeanOfLatest`).

## Model

| member | source | states |
|---|---|---|
| HardwareMessageDecoder.ParseId | src/hardware_message_decoder.rs:104-112 | fails with a `HexDigit` error at its input exactly when no hex digit starts it; panics exactly when the hex run is neither empty nor 12 digits long; on success consumes exactly 12 digits, in any letter case, and yields their base-16 value, which is below 2^48, so the u64 conversion cannot overflow |
| HardwareMessageDecoder.ParseQuotedId | src/hardware_message_decoder.rs:114-116 | an accepted quoted id has a double quote before and after its 12 digits, and its value is the base-16 value of those digits, below 2^48; the rest is the text after the closing quote; failures report a suffix of the input |
| HardwareMessageDecoder.ParseQuotedString | src/hardware_message_decoder.rs:118-123 | never panics; on success the input is a quote, the value, a quote, then the rest, and the value is alphanumeric (possibly empty) |
| HardwareMessageDecoder.ParseUudfEvent | src/hardware_message_decoder.rs:125-163 | accepts only lines starting with `+UUDF:`; both ids are below 2^48 and the user field is alphanumeric; a line without the tag fails with a `Tag` error carrying the whole line; `UudfShape` gives the field order and values of an accepted line |
| HardwareMessageDecoder.ParseUudfpEvent | src/hardware_message_decoder.rs:165-175 | accepts only lines starting with `+UUDFP:`, with a tag id below 2^48; a line without the tag fails with a `Tag` error carrying the whole line |
| HardwareMessageDecoder.TagsExclusive | src/hardware_message_decoder.rs:125-175 | no line starts with both `+UUDF:` and `+UUDFP:` |
| HardwareMessageDecoder.TagP | src/hardware_message_decoder.rs:128 | `tag` succeeds exactly when the input starts with the tag and leaves the text after it; otherwise it fails with a `Tag` error at its input; it never panics |
| HardwareMessageDecoder.CharP | src/hardware_message_decoder.rs:129 | `char` succeeds exactly when the input starts with that character and consumes only it; otherwise it fails with a `Char` error at its input |
| HardwareMessageDecoder.HexDigit1 | src/hardware_message_decoder.rs:169 | `hex_digit1` fails with a `HexDigit` error at its input exactly when no hex digit starts it; otherwise it takes the longest non-empty run of hex digits, and the rest does not start with one |
| HardwareMessageDecoder.Alphanumeric0 | src/hardware_message_decoder.rs:120 | `alphanumeric0` never fails and takes the longest (possibly empty) run of ASCII letters and digits |
| HardwareMessageDecoder.I32 | src/hardware_message_decoder.rs:129-132 | nom's `i32` never panics; it succeeds exactly when the digit run after an optional `+` or `-` is non-empty and its value, negated after `-`, is within the signed 32-bit range, so an out-of-range number fails; the result is that value and the rest is the text after the run; every failure is a `Digit` error at its input |
| HardwareMessageDecoder.U32 | src/hardware_message_decoder.rs:133-137 | nom's `u32` never panics; it succeeds exactly when the leading digit run is non-empty and its value is below 2^32, so an out-of-range number fails; the result is that value and the rest is the text after the run; every failure is a `Digit` error at its input |
| HardwareMessageDecoder.ParseHardwareEvent | src/hardware_message_decoder.rs:28-31 | the `alt` of the two grammars: a measurement only from a `+UUDF:` line and a heartbeat only from a `+UUDFP:` line; a line with neither tag fails with a `Tag` error carrying the whole line |
| HardwareMessageDecoder.HardwareEventFromStr | src/hardware_message_decoder.rs:25-41 | `from_str` returns a measurement only for a `+UUDF:` line and a heartbeat only for a `+UUDFP:` line, each with ids below 2^48; an error carries a suffix of the input |
| HardwareMessageDecoder.UudfEventFromStr | src/hardware_message_decoder.rs:91-102 | `UUDFEvent::from_str` returns an event only for a `+UUDF:` line, with ids below 2^48; an error carries a suffix of the input, the whole line when the tag is missing |
| HardwareMessageDecoder.UudfpEventFromStr | src/hardware_message_decoder.rs:50-61 | `UUDFPEvent::from_str` returns an event only for a `+UUDFP:` line, with an id below 2^48; an error carries a suffix of the input, the whole line when the tag is missing |
| HardwareMessageDecoder.FromStrChoosesGrammar | src/hardware_message_decoder.rs:25-41 | `from_str` yields a heartbeat exactly when the heartbeat grammar matches and a measurement exactly when the measurement grammar matches, carrying that grammar's value; when both fail, the error is the heartbeat grammar's error, with the input at the point of failure |
| HardwareMessageDecoder.FromStrUntagged | src/hardware_message_decoder.rs:25-41 | a line starting with neither tag is rejected with a `Tag` error carrying the whole line |
| HardwareMessageDecoder.ParseIdText | src/hardware_message_decoder.rs:104-112 | any id below 2^48, written as 12 hex digits and followed by a non-hex character, is read back with that character left over |
| HardwareMessageDecoder.QuotedIdText | src/hardware_message_decoder.rs:114-116 | a quoted 12-digit id is read back with the rest after the closing quote left over |
| HardwareMessageDecoder.QuotedStringText | src/hardware_message_decoder.rs:118-123 | any alphanumeric text between quotes is read back, the empty text included |
| HardwareMessageDecoder.I32Text | src/hardware_message_decoder.rs:129-132 | every i32, written in decimal with a leading `-` when negative, is read back by nom's `i32` when followed by a non-digit |
| HardwareMessageDecoder.U32Text | src/hardware_message_decoder.rs:133-137 | every u32 written in decimal is read back by nom's `u32` when followed by a non-digit |
| HardwareMessageDecoder.ReadingsRoundTrip | src/hardware_message_decoder.rs:129-133 | the five readings (rssi, two angles, reserved, channel), written comma-separated, are read back in that order |
| HardwareMessageDecoder.TrailerRoundTrip | src/hardware_message_decoder.rs:134-137 | the quoted anchor id, the quoted user field, the timestamp and the sequence are read back in that order |
| HardwareMessageDecoder.UudfRoundTrip | src/hardware_message_decoder.rs:125-163 | every well-formed measurement, written out and followed by text that does not continue the last number, parses back to itself with that text left over; every field lands in its own struct field |
| HardwareMessageDecoder.UudfFromStrRoundTrip | src/hardware_message_decoder.rs:91-102 | `UUDFEvent::from_str` and `HardwareEvent::from_str` return the written measurement and ignore trailing text such as a line break |
| HardwareMessageDecoder.UudfpRoundTrip | src/hardware_message_decoder.rs:165-175 | a heartbeat line (tag, 12-digit id, comma, non-empty hex blob) parses to the id alone, as a heartbeat also through `HardwareEvent::from_str` |
| HardwareMessageDecoder.UudfpShape | src/hardware_message_decoder.rs:165-175 | every accepted heartbeat line is the tag, 12 hex digits whose value is the id, a comma, at least one hex digit, then a rest that does not start with a hex digit |
| HardwareMessageDecoder.UudfShape | src/hardware_message_decoder.rs:125-163 | every accepted measurement line is the tag, then the ten fields in the grammar's order, each spelling the value the event carries: 12 hex digits for the tag id and the anchor id, an optional sign and decimal digits for rssi, both angles and the reserved field, decimal digits for the channel, the timestamp and the sequence, the user field verbatim between quotes; then the rest, which does not start with a digit |
| HardwareMessageDecoder.WrongIdLengthPanics | src/hardware_message_decoder.rs:106-110 | a measurement tag followed by a hex run of any non-zero length other than 12 is an abort, not a parse error, also through `from_str` |
| HardwareMessageDecoder.MissingCommaError | src/hardware_message_decoder.rs:128-129 | after a good tag and id, a missing comma fails with a `Char` error whose input is the text right after the id |
| Hdm.ToUpdate | src/hdm.rs:29-34 | the update goes from the antenna (`src`) to the tag (`dst`), and each angle keeps its sign |
| Hdm.ToUpdateConverts | src/hdm.rs:32-33 | multiplying the azimuth and elevation by 180/pi gives back angle 1 and angle 2; an angle within a half-turn lands within plus or minus pi |
| Hdm.PushFront | src/hdm.rs:36 | the new update is at the front and the old contents follow unchanged |
| Hdm.PopFront | src/hdm.rs:44 | None exactly on an empty buffer; otherwise the front update, with the rest left behind |
| Hdm.LastInFirstOut | src/hdm.rs:28-45 | popping right after a push returns the pushed update and restores the previous buffer |
| Hdm.AddAllReverses | src/hdm.rs:36-44 | adding a series of updates puts them in front of the old contents in reverse order, so they are read newest first |
| Hdm.Hdm.constructor | src/hdm.rs:21-25 | the buffer starts empty |
| Hdm.Hdm.AddUpdate | src/hdm.rs:28-37 | the buffer gains exactly the converted update, at the front |
| Hdm.Hdm.Next | src/hdm.rs:43-45 | pops the front update, one element fewer; None exactly when the buffer was empty |
| Hdm.Hdm.Clear | src/hdm.rs:49-51 | the buffer is empty afterwards |
| Hdm.AddThenNext | src/hdm.rs:28-45 | reading right after `add_update(e)` returns the update built from `e` and leaves the buffer as it was |
| Hdm.ClearThenNext | src/hdm.rs:43-51 | after `clear`, `next` returns None |
| UpdateAccumulator.IngestPerKey | src/update_accumulator.rs:46-60 | draining appends, to each key's window, exactly that key's updates in drain order; a window exists afterwards exactly when it existed before or one of its updates arrived; other windows are untouched |
| UpdateAccumulator.Ingest | src/update_accumulator.rs:46-60 | draining removes no window, only appends to the back of an existing window, and leaves a window for the key of every drained update |
| UpdateAccumulator.IngestConcat | src/update_accumulator.rs:46-60 | draining two batches one after the other equals draining them as one batch |
| UpdateAccumulator.IngestWellKeyed | src/update_accumulator.rs:47-58 | draining keeps every window non-empty and holding only updates of its own key; no window is removed |
| UpdateAccumulator.ReverseArrival | src/update_accumulator.rs:46-60 | updates added to the buffer since the last drain reach their windows in reverse arrival order |
| UpdateAccumulator.LatestIsRecent | src/update_accumulator.rs:67 | the averaged part of a window is its last min(length, 50) entries, in their original order; taking it twice changes nothing |
| UpdateAccumulator.LatestIgnoresOlder | src/update_accumulator.rs:67 | entries older than the most recent 50 never reach the averaged part |
| UpdateAccumulator.MeanBounds | src/update_accumulator.rs:66-82 | each reported angle lies between any lower and upper bound of the averaged angles |
| UpdateAccumulator.WindowMean | src/update_accumulator.rs:66-82 | a reported update carries the key of the window's newest entry, and each of its angles times the number of averaged entries gives back their sum: it is their arithmetic mean |
| UpdateAccumulator.MeanKey | src/update_accumulator.rs:67-76 | a reported update carries its window's key, copied from the newest entry |
| UpdateAccumulator.MeanOfLatest | src/update_accumulator.rs:63-92 | trimming a window first does not change its mean, so averaging before trimming equals trimming before averaging |
| UpdateAccumulator.MeanOf | src/update_accumulator.rs:66-83 | the reduce from the newest entry backwards over at most 50 entries yields the window's mean update |
| UpdateAccumulator.TrimAll | src/update_accumulator.rs:86-92 | trimming keeps every key, leaves at most 50 entries per window, and what remains of a window is its newest part |
| UpdateAccumulator.TrimAllKeeps | src/update_accumulator.rs:86-92 | after trimming, every window is still non-empty and of its own key, and a window of 50 or fewer entries is unchanged |
| UpdateAccumulator.SnapshotSize | src/update_accumulator.rs:63-84 | a snapshot holds exactly one update per window |
| UpdateAccumulator.Means | src/update_accumulator.rs:63-84 | one update per window, with distinct keys in some order, each the mean of its window |
| UpdateAccumulator.UpdateAccumulator.constructor | src/update_accumulator.rs:36-41 | no windows at the start |
| UpdateAccumulator.UpdateAccumulator.GetStatus | src/update_accumulator.rs:45-95 | empties the buffer; returns one mean update per window of the windows after draining; leaves those windows trimmed to their latest 50; keeps every window non-empty, bounded and of its own key |
| UpdateAccumulator.UpdateAccumulator.Drain | src/update_accumulator.rs:46-60 | empties the buffer and appends every update it held, in pop order, to its window |
| UpdateAccumulator.UpdateAccumulator.TrimWindows | src/update_accumulator.rs:86-92 | each window longer than 50 drops its oldest entries; the others are untouched |
| Sphericalizer.ScaleAngle | src/sphericalizer.rs:37-41 | the result always lies in [-pi/2, pi/2] |
| Sphericalizer.ScaleAngleSpec | src/sphericalizer.rs:35-41 | within the observed range of plus or minus 1.22173 the scaling is exactly proportional; beyond it the result is held at the nearer bound; the scaling is monotone and odd |
| Sphericalizer.ReflectionSpec | src/sphericalizer.rs:76-78 | the back azimuth is reflected to pi minus itself exactly when the front azimuth is positive (zero is not reflected), landing in [pi/2, 3pi/2]; otherwise it stays in [-pi/2, pi/2] |
| Sphericalizer.Spherical | src/sphericalizer.rs:68-85 | the azimuth lies in [0, 2pi), the elevation within a quarter turn, and gain and range come from the tag's setting |
| Sphericalizer.SphericalSpec | src/sphericalizer.rs:68-85 | the azimuth is the facing azimuth turned by -3pi/2, or by +pi/2 where that is needed to stay in [0, 2pi); the elevation is the scaled back elevation; the front reading matters only through the sign of its azimuth |
| Sphericalizer.SphericalizePair | src/sphericalizer.rs:68-85 | the step-by-step updates of `metadata.azimuth` compute the per-tag metadata |
| Sphericalizer.InsertByDst | src/sphericalizer.rs:53 | inserting keeps every element and adds the new one |
| Sphericalizer.SortByDst | src/sphericalizer.rs:53 | the sort is a permutation of its input |
| Sphericalizer.SortByDstSorted | src/sphericalizer.rs:53 | the sort's result is ordered by tag id |
| Sphericalizer.ChunksAscend | src/sphericalizer.rs:53-55 | after sorting, every reading of an earlier pair has a tag id no greater than any reading of a later pair |
| Sphericalizer.Find | src/sphericalizer.rs:60-67 | returns a reading from the antenna, or None exactly when the pair has none |
| Sphericalizer.FindFirst | src/sphericalizer.rs:60-67 | the reading returned is the first one from that antenna, as `iter().find` does |
| Sphericalizer.TagMetadataSpec | src/sphericalizer.rs:68-85 | the metadata of tag i takes its gain and range from setting i and its elevation from the back reading of pair i; its azimuth lies in [0, 2pi) |
| Sphericalizer.Sphericalizer.constructor | src/sphericalizer.rs:31-33 | keeps the given tag settings |
| Sphericalizer.Sphericalizer.Sphericalize | src/sphericalizer.rs:49-87 | not ready exactly when the snapshot length is not twice the number of settings; otherwise ready exactly when every sorted pair has a back and a front reading, with one metadata entry per setting built from pair i and setting i; otherwise the first incomplete pair is reported: `MissingBack` when it lacks a back reading, and `MissingFront` only when its back reading is present (the first `expect` checks the back antenna) |
| Sphericalizer.Sphericalizer.Query | src/sphericalizer.rs:45-89 | the accumulator is drained and its windows updated and trimmed whether or not the result is ready; not ready exactly when the number of windows is not twice the number of settings; when ready, one entry per setting |
| TimeDomainBuffer.TDBufMeta.constructor | src/time_domain_buffer.rs:16-21 | an empty log of the given width, which is a constant afterwards |
| TimeDomainBuffer.TDBufMeta.Add | src/time_domain_buffer.rs:25-28 | panics exactly when the row's width differs from the number of tags; otherwise appends the row at the end and leaves earlier rows unchanged; every stored row keeps the width |
| TimeDomainBuffer.TDBufMeta.Dump | src/time_domain_buffer.rs:31-33 | returns all rows in insertion order, each of width `num_tags` |
| TimeDomainBuffer.Record | src/time_domain_buffer.rs:40-62 | feeding rows to a fresh log and dumping it gives those rows back exactly when all have the right width |
| SpatialDataFormat.Tags | src/spatial_data_format.rs:150-155 | the header tags are the stream tags in insertion order |
| SpatialDataFormat.Shortest | src/spatial_data_format.rs:161 | the length of some stream, and no greater than any stream's length |
| SpatialDataFormat.Longest | src/spatial_data_format.rs:192 | the length of some stream, and no less than any stream's length |
| SpatialDataFormat.InterleaveIndex | src/spatial_data_format.rs:163-167 | `count` slices of one sample per stream: position k*n+j holds sample k of stream j, extended past its end |
| SpatialDataFormat.TruncateLayout | src/spatial_data_format.rs:149-168 | truncating keeps shortest * n samples, and sample k of stream j is at position k*n+j |
| SpatialDataFormat.ExtendLayout | src/spatial_data_format.rs:180-209 | extending keeps longest * n samples; past the end of stream j its last sample repeats, or 0.0 for an empty stream |
| SpatialDataFormat.TruncatedUniform | src/spatial_data_format.rs:163-167 | streams of one repeated sample interleave into that sample only |
| SpatialDataFormat.NeighboursEqualAll | src/spatial_data_format.rs:221-229 | neighbouring lengths agree exactly when all lengths agree; then the shortest and the longest coincide and truncating equals extending |
| SpatialDataFormat.GrapeFileBuilder.constructor | src/spatial_data_format.rs:121-127 | no streams, a stream count of 0 and a sample rate of 0 |
| SpatialDataFormat.GrapeFileBuilder.SetSampleRate | src/spatial_data_format.rs:129-134 | changes the sample rate only |
| SpatialDataFormat.GrapeFileBuilder.AddStream | src/spatial_data_format.rs:136-141 | appends the tagged stream at the end and adds one to the count, which stays equal to the number of streams |
| SpatialDataFormat.GrapeFileBuilder.ClearStreams | src/spatial_data_format.rs:143-147 | removes every stream and resets the count, keeping the sample rate |
| SpatialDataFormat.GrapeFileBuilder.BuildTruncate | src/spatial_data_format.rs:149-178 | the header holds the count, the rate and the tags; the samples are the slices up to the shortest stream (none without streams) |
| SpatialDataFormat.GrapeFileBuilder.BuildExtend | src/spatial_data_format.rs:180-219 | the header as above; the samples are the slices up to the longest stream, shorter streams extended |
| SpatialDataFormat.GrapeFileBuilder.Build | src/spatial_data_format.rs:221-229 | succeeds exactly when neighbouring stream lengths agree, trivially for 0 or 1 streams, with the truncated file; otherwise `UnequalSampleBufferLengths` |
| SpatialDataFormat.Fill | src/spatial_data_format.rs:163-167 | the nested index loops push exactly the interleaved slices |
| SpatialDataFormat.SampleRoundTrip | src/spatial_data_format.rs:70-105 | `from_be_bytes` of `to_be_bytes` gives back the sample's bits |
| SpatialDataFormat.BytesRoundTrip | src/spatial_data_format.rs:70-105 | any four bytes are the `to_be_bytes` form of the sample `from_be_bytes` reads from them |
| SpatialDataFormat.EncodeSamples | src/spatial_data_format.rs:70 | four bytes per sample |
| SpatialDataFormat.ToBytes | src/spatial_data_format.rs:56-77 | `to_file` writes the header text, one 0xFF and four bytes per sample; with a lawful codec the first 0xFF is the one after the header |
| SpatialDataFormat.DecodeSamples | src/spatial_data_format.rs:100-107 | the samples decode exactly when their section is a multiple of 4 bytes long (otherwise `bs[0..4]` panics), and the decoded samples encode back to the same bytes |
| SpatialDataFormat.EncodeSamplesIndex | src/spatial_data_format.rs:70 | sample k occupies bytes 4k to 4k+4 of the sample section, most significant byte first |
| SpatialDataFormat.FirstDelimiter | src/spatial_data_format.rs:87-90 | None exactly when there is no 0xFF; otherwise the position of the first 0xFF |
| SpatialDataFormat.SamplesRoundTrip | src/spatial_data_format.rs:100-107 | decoding the encoded samples gives the same samples |
| SpatialDataFormat.FileRoundTrip | src/spatial_data_format.rs:56-110 | with a header codec whose text parses back and contains no 0xFF, reading the written bytes gives back the same file |
| SpatialDataFormat.FromBytes | src/spatial_data_format.rs:79-110 | `from_file` fails with `NoDelimiter` exactly when there is no 0xFF; otherwise, with i the first 0xFF, it fails with `HeaderError` exactly when the bytes before i do not parse, panics exactly when they parse but the bytes after i are not a multiple of 4, and on success the header is the parse of the bytes before i and the samples encode to the bytes after it |
| SpatialDataFormat.WriteAndRead | src/spatial_data_format.rs:236-250 | the format's own test: two streams of four test samples at rate 1000 build without error into 8 copies of the test sample, and read back unchanged |
| Transpose.FirstEmpty | src/lib.rs:65 | the index of the first exhausted iterator: it is exhausted and every earlier one is not |
| Transpose.TransposeIter.constructor | src/lib.rs:53-56 | one inner iterator per sequence, in the outer order |
| Transpose.TransposeIter.Next | src/lib.rs:64-67 | when every iterator has an element, returns a row with the next element of each, and all advance by one; otherwise None, with the iterators before the first exhausted one advanced and the rest untouched; with no iterators, an empty row and nothing changes |
| Transpose.Collect | src/lib.rs:59-68 | for at least one finite sequence, the rows before the first None number the shortest length, and row r holds element r of every sequence in order |
| Transpose.EmptyNeverEnds | src/lib.rs:36-38 | with no inner iterators every call returns an empty row, so the iteration never ends |

## Left out

- IEEE-754 arithmetic. Angles, means, scaling and rotation are exact reals, so rounding, NaN and infinities are not modelled. Samples are 32-bit patterns, and file equality is equality of bits. Rust's `f32` equality differs from that only for NaN and for +0.0 versus -0.0.
- The `f64` to `f32` casts in `query` and the `i32` to `f64` conversion in `add_update` are exact here. The constants pi (`f64` in the buffer, `f32` in the sphericalizer) are the exact values of those floats.
- `usize` and `u64` widths of ids and of the stream count. Ids are `nat` (the grammar keeps them below 2^48), and `n_streams` is a `nat`.
- Digit-by-digit overflow in nom's `i32` and `u32`. The model compares the value of the whole digit run with the bound. This gives the same outcomes because the values of a run's prefixes only grow.
- The literal strings of the decoder tests (src/hardware_message_decoder.rs:181-296) are not written out. Each test line is exactly `FormatUudf` or `FormatUudfp` of its expected event with nothing after it. So `UudfFromStrRoundTrip` and `UudfpRoundTrip` cover them generally.
- `Arc<Mutex<…>>`, `Rc<RefCell<…>>` and threads. `get_status` receives the buffer object directly instead of through the accumulator's `hdm_handle`.
- The order of `HashMap` iteration. `Means` and `TrimWindows` visit keys in an arbitrary order, so the snapshot's order is only stated up to a permutation.
- `sort_by` is modelled as a pure insertion sort (`SortByDst`), not as an in-place sort of a vector.
- `TimeDomainBuffer.TDBufMeta.Dump`: Rust's `dump(self)` consumes the log, so nothing can be added after it. The model's object stays usable after `Dump`, which leaves the rows in place.
- The RON header serialiser is a parameter (`HeaderCodec`). Its `to_string` error is not modelled: encoding is total, so `ToBytes` has no error outcome. Its parse error is `HeaderError`. `FileRoundTrip` assumes the codec is lawful: its text parses back and never contains 0xFF (UTF-8 never does).
- File creation, reading and writing and their `IoError`, including the file handle of `to_file`. Only the bytes are modelled.
- The second `NoDelimiter` (`split_first` after a found delimiter) cannot happen, and the `TryInto` error is never reached, because a short chunk panics on `bs[0..4]` first. Neither is a separate outcome.
- The `unwrap_or(v[0])` fallback of the mean is never taken, because windows are never empty (`IngestWellKeyed`). The model has no such branch.
- `BufferMetadata` is defined in src/saf.rs, which is not part of this model. Only its four fields, as used at src/sphericalizer.rs:69-74, are modelled.
- `Sphericalizer.Sphericalizer.Query`: its contract states the readiness condition, the accumulator's new state and the number of entries. The contents of the entries are stated on `Sphericalizer.Sphericalizer.Sphericalize`, since the snapshot's order comes from the map's iteration order.
- A panic of `expect` in `query` is a `MissingBack` or `MissingFront` outcome naming the pair, and a panic of `assert_eq!` in `add` is a `true` result with nothing stored. A panic of `from_str_radix` in `parse_id` and of `bs[0..4]` in `from_file` is a `Panic` outcome. None of them is modelled as unwinding.
