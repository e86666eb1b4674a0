# Aurora-Font sfnt front end, modelled in Dafny

This project models the in-memory front end of the Aurora-Font library and proves properties of the model. The front end has four parts:

- **`FontDataStream`**: a bounds-checked cursor over an immutable byte buffer. It has a read position and a byte order.
- **Byte-order helpers**: assemble integers from bytes, and classify a byte order from sample data or a byte-order mark.
- **The sfnt table directory**:
  - the 12-byte header and the `numTables` 16-byte table records;
  - lookups by tag;
  - the wrapping big-endian word checksum, with the `checksumAdjustment` field of the `head` table zeroed;
  - validation of every record against the bytes it describes.
- **Dispatch**:
  - a classifier of the four-byte file signature;
  - `decode_into`, which drives a font sink with the parsed directory;
  - the built-in `Font` sink.

The table directory layout follows the "Table Directory" section of the OpenType specification's chapter "The OpenType Font File". The checksum follows that chapter's "Calculating Checksums" section.

## How the model is built

Each Rust source file becomes one module, except src/common/snft.rs, which is split into `Snft`, `Checksum` and `Validate`. `Wrappers` and `Primitives` hold shared types and stand for no source file.

- **`Wrappers`, `Primitives`, `Errors`**:
  - `Option` and `Result`;
  - the fixed-width integer types as subset types of `int`, with `usize` taken as 64 bits;
  - 4-byte tags as `seq<u8>`;
  - the crate's `Error` and `IoError` enums.
- **`Endian`** (`src/io/endian.rs`): pure functions. The digit lemmas state what `u16_from` and `u32_from` compute, byte by byte.
- **`Stream`** (`src/io/stream.rs`): the class `FontDataStream`.
  - The buffer is a `const` field; `position` and `endianness` are fields that the methods update.
  - The invariant `Valid()` says the position never passes the end of the buffer.
  - Sequential reads are methods whose contracts give the value read and the new position on both the success and the error path.
  - Peeks and absolute reads are functions that read the state.
- **`Snft`** (`src/common/snft.rs`): the directory datatypes and lookups.
  - `ParseHeader`, `ParseEntry`, `ParseRecords` and `ParseSnft` are closed-form specifications of reading through the cursor. A parse yields a `Parsed(result, next)`; `next` is where the cursor ends up, and a failed read also moves the cursor, just as the code does.
  - `ReadSnftHeader`, `ReadSnftTableEntry` and `ReadSnft` are the cursor-advancing methods, each proved equal to its specification. `ReadRecords` is `ReadSnft`'s record loop, stated on its own.
- **`Checksum`**: the checksum routines as loops, proved equal to `Checksum` (an unbounded sum taken modulo 2^32) and `TableChecksum`.
- **`Validate`** (`src/common/snft.rs:252-312`): the sequential validator, proved to return the unique result that `ValidationOutcome` describes.
- **`CommonDecode`** (`src/common/decode.rs`): signature classification and the per-format decoders.
- **`Sink`** (`src/optional/sink.rs`): the `FontSink` trait as a datatype of three callbacks:
  - `consumeSnft`, with the `&mut self` state passed and returned as a value;
  - `finish`;
  - `into`, the conversion of the sink's error into the crate's `Error`.
- **`OptionalDecode`** (`src/optional/decode.rs:49-76`): `DecodeInto` over any such sink. It also returns the sequence of sink calls it made, so the contract can say which calls happen and in what order.
- **`Builtin`** (`src/optional/builtin.rs`): the `Font` sink. It is a class whose `ConsumeSnft` appends to its record list in place, and `BuiltinSink()` is the same sink as a callback value.

The source's integer arithmetic is modelled as follows:

- **Exact sums in bounds checks.** The cursor's bounds checks are modelled with exact `nat` arithmetic.
  - In `peek_bytes`, `slice_at` and `read_at_*`, a sum `position + length` that overflows `usize` panics in a debug build.
  - In a release build it wraps to an end below the start. `get` then returns `None`, which is the same `OutOfBounds` error that the exact sum gives.
  - The one place where a wrap would change the result is `skip`; see "Left out".
- **Two's complement.** `read_i8`, `read_i16` and `read_i32` reinterpret the unsigned value.
- **`Seek`.** The `i64` saturating additions are written out.

## Model

| member | source | states |
|---|---|---|
| Primitives.AsI8 | src/io/stream.rs:116-118 | the `as i8` reinterpretation is congruent to the byte modulo 2^8 and is negative exactly when the top bit is set |
| Primitives.AsI16 | src/io/stream.rs:120-122 | the `as i16` reinterpretation is congruent modulo 2^16 and is negative exactly when bit 15 is set |
| Primitives.AsI32 | src/io/stream.rs:124-126 | the `as i32` reinterpretation is congruent modulo 2^32 and is negative exactly when bit 31 is set |
| Endian.ByteOrder.IsBig | src/io/endian.rs:18-20 | holds exactly for the order that reads `01 00` as 256, i.e. puts the first byte high |
| Endian.ByteOrder.IsLittle | src/io/endian.rs:22-24 | holds exactly for the order that reads `01 00` as 1, i.e. puts the first byte low |
| Endian.U16From | src/io/endian.rs:101-106 | the high byte of the result is the first byte in big-endian order and the second in little-endian order |
| Endian.U32From | src/io/endian.rs:110-115 | the most significant byte of the result is the first byte in big-endian order and the last in little-endian order |
| Endian.ExactlyOneOrder | src/io/endian.rs:18-24 | for every byte order exactly one of `is_big` and `is_little` holds |
| Endian.U16Digits | src/io/endian.rs:101-106 | `u16_from` puts the first byte high in big-endian order and the second byte high in little-endian order |
| Endian.U32Digits | src/io/endian.rs:110-115 | `u32_from`'s four base-256 digits are the bytes, most significant first in big-endian order and last in little-endian order |
| Endian.U32FromInjective | src/io/endian.rs:110-115 | two 4-byte arrays with the same value in the same order are equal |
| Endian.LittleIsReversedBig | src/io/endian.rs:101-115 | the little-endian value equals the big-endian value of the reversed bytes, for both widths |
| Endian.U32FromTestExample | tests/basic.rs:18-21 | `[0,0,1,0]` is 256 in big-endian order and 65536 in little-endian order |
| Endian.ReadU16FromSlice | src/io/endian.rs:120-126 | `None` exactly when the slice has fewer than 2 bytes, otherwise `u16_from` of the first two |
| Endian.ReadU32FromSlice | src/io/endian.rs:131-137 | `None` exactly when the slice has fewer than 4 bytes, otherwise `u32_from` of the first four |
| Endian.DetectFromU16Data | src/io/endian.rs:45-59 | `None` iff fewer than 2 bytes or `b0 == b1`; little-endian iff `b0 < b1`; big-endian iff `b0 > b1` |
| Endian.DetectU16PicksLargerReading | src/io/endian.rs:45-59 | the order detected is the one under which the first two bytes read as the larger value |
| Endian.DetectFromU32Data | src/io/endian.rs:67-82 | `None` iff fewer than 4 bytes or `b0 == b3`; little-endian iff `b0 < b3`; big-endian iff `b0 > b3` |
| Endian.DetectU32Examples | src/io/endian.rs:67-82 | only bytes 0 and 3 are compared: `77 1B A2 4F` is big-endian and `4F A2 1B 77` little-endian |
| Endian.DetectFromBom | src/io/endian.rs:88-97 | big-endian iff the slice is exactly `FE FF` or `00 00 FE FF`; little-endian iff exactly `FF FE` or `FF FE 00 00` |
| Endian.BomMatchesWholeSlice | src/io/endian.rs:88-97 | the UTF-8 mark and a mark followed by more bytes give `None` |
| Stream.AvailableAt | src/io/stream.rs:220 | the bytes left at an offset: `len - offset` before the end, else 0 |
| Stream.SaturatingAddI64 | src/io/stream.rs:334-335 | `i64` saturating addition: the exact sum when it fits, else the bound it passes |
| Stream.SeekTarget | src/io/stream.rs:324-336 | a start offset above `i64::MAX` is refused, any other start offset is the target; an end or current offset is added to the length or position and saturates at `i64::MAX` |
| Stream.FontDataStream.constructor | src/io/stream.rs:46-52 | a new stream is at position 0, big-endian, over the given bytes |
| Stream.FontDataStream.WithEndianness | src/io/stream.rs:55-58 | only the byte order changes |
| Stream.FontDataStream.ReadU8 | src/io/stream.rs:61-73 | with a byte left, returns it and advances by 1; otherwise `OutOfBounds(1, len - pos)` and the position is unchanged; the value is what `peek_u8` gives |
| Stream.FontDataStream.ReadU16 | src/io/stream.rs:76-91 | with 2 bytes left, returns `u16_from` of them in the stream's order and advances by 2; otherwise `OutOfBounds(2, len - pos)` with the position unchanged |
| Stream.FontDataStream.ReadU32 | src/io/stream.rs:94-113 | with 4 bytes left, returns `u32_from` of them and advances by 4; otherwise `OutOfBounds(4, len - pos)` with the position unchanged |
| Stream.FontDataStream.ReadI8 | src/io/stream.rs:116-118 | the two's complement of `read_u8`'s value, with the same position effect and error |
| Stream.FontDataStream.ReadI16 | src/io/stream.rs:120-122 | the two's complement of `read_u16`'s value, with the same position effect and error |
| Stream.FontDataStream.ReadI32 | src/io/stream.rs:124-126 | the two's complement of `read_u32`'s value, with the same position effect and error |
| Stream.FontDataStream.Skip | src/io/stream.rs:129-131 | the position advances by the count, clamped to the end of the buffer |
| Stream.FontDataStream.Reset | src/io/stream.rs:134-136 | the position is 0 |
| Stream.FontDataStream.Position | src/io/stream.rs:139-141 | the position never passes the end of the buffer |
| Stream.FontDataStream.Tell | src/io/stream.rs:143-145 | `tell` is the position |
| Stream.FontDataStream.IsEof | src/io/stream.rs:148-150 | at the end iff the position equals the length iff no bytes remain |
| Stream.FontDataStream.RemainingBytes | src/io/stream.rs:153-155 | the bytes consumed followed by the remaining bytes are the whole buffer |
| Stream.FontDataStream.Len | src/io/stream.rs:158-160 | the buffer's length |
| Stream.FontDataStream.IsEmpty | src/io/stream.rs:163-165 | empty iff the length is 0 |
| Stream.FontDataStream.Seek | src/io/stream.rs:171-173 | the position is the target clamped to the end of the buffer |
| Stream.FontDataStream.ReadBytes | src/io/stream.rs:177-189 | with `n` bytes left, returns them and advances by `n`; otherwise `OutOfBounds(n, len - pos)`, position unchanged; the result is what `peek_bytes(n)` gives |
| Stream.FontDataStream.PeekU8 | src/io/stream.rs:192-201 | the byte at the position, or `OutOfBounds(1, len - pos)` |
| Stream.FontDataStream.PeekBytes | src/io/stream.rs:204-212 | the `n` bytes at the position, or `OutOfBounds(n, len - pos)` |
| Stream.FontDataStream.PeekIsSliceAtPosition | src/io/stream.rs:192-212 | peeking is an absolute read at the current position |
| Stream.FontDataStream.ReadAtU8 | src/io/stream.rs:215-226 | succeeds iff the offset is inside the buffer, with that byte; otherwise `OutOfBounds(1, available at offset)` |
| Stream.FontDataStream.ReadAtU16 | src/io/stream.rs:229-243 | succeeds iff 2 bytes fit at the offset, with their value in the stream's order; otherwise `OutOfBounds(2, available at offset)` |
| Stream.FontDataStream.ReadAtU32 | src/io/stream.rs:246-264 | succeeds iff 4 bytes fit at the offset, with their value in the stream's order; otherwise `OutOfBounds(4, available at offset)` |
| Stream.FontDataStream.ReadAtIsDecodedSlice | src/io/stream.rs:229-275 | each absolute integer read is the decoding of `slice_at` of its width, and fails exactly when that slice does |
| Stream.FontDataStream.SliceAt | src/io/stream.rs:267-275 | succeeds iff the range fits, with exactly those bytes; otherwise `OutOfBounds(length, available at offset)` |
| Stream.FontDataStream.SliceRange | src/io/stream.rs:282-303 | `start > end` is `InvalidOffset(start)`; an in-range end gives `data[start..end]`; a range past the end is `OutOfBounds(end - start, available at start)` |
| Stream.FontDataStream.SliceRangeIsSliceAt | src/io/stream.rs:267-303 | a well-ordered range is `slice_at(start, end - start)`, error payload included |
| Stream.FontDataStream.ReadTag | src/io/stream.rs:306-309 | four raw bytes, advancing by 4, or `OutOfBounds(4, len - pos)` with the position unchanged |
| Stream.FontDataStream.IoRead | src/io/stream.rs:313-319 | copies `min(buf.len, len - pos)` bytes into the front of `buf`, leaves the rest of `buf`, advances by that count |
| Stream.FontDataStream.IoSeek | src/io/stream.rs:323-347 | an out-of-range start or a negative target is an error with the position unchanged; otherwise the target clamped to the length becomes the position and is returned |
| Snft.GetTableByTag | src/common/snft.rs:25-27 | `None` iff no record has the tag; otherwise the first record in directory order with that tag |
| Snft.HasTable | src/common/snft.rs:43-45 | holds iff some record has the tag, iff `get_table_by_tag` finds one |
| Snft.TableCount | src/common/snft.rs:38-40 | the number of records |
| Snft.IsEmpty | src/common/snft.rs:88-90 | empty iff there are no records; an empty directory has no tag, a non-empty one has its first record's tag |
| Snft.ListTableTags | src/common/snft.rs:30-35 | one tag per record, in directory order |
| Snft.ParseSnftSucceeds | src/common/snft.rs:195-249 | a directory parses iff its header and all `numTables` records fit; then the header is the five fields read in order, the records are those at `pos + 12 + 16 i` in file order, and the cursor advanced `12 + 16 numTables` bytes |
| Snft.ParseSnftFailureIsExact | src/common/snft.rs:195-249 | a failed parse returns no directory and an `OutOfBounds` naming the bytes left where the cursor stopped, fewer than the 2 or 4 it asked for |
| Snft.TruncatedDirectoryFailsAtFirstShortRecord | src/common/snft.rs:204-206 | when the records do not fit, the parse fails inside the first record not wholly in the buffer, at one of its 4-byte fields |
| Snft.ListedTagsAreRecordTags | src/common/snft.rs:30-35 | the tags of a parsed directory are the first four bytes of each record, in file order |
| Snft.ReadSnftHeader | src/common/snft.rs:215-231 | reads version, numTables, searchRange, entrySelector, rangeShift as `ParseHeader` says, stopping at the first field that does not fit |
| Snft.ReadSnftTableEntry | src/common/snft.rs:234-249 | reads tag, checksum, offset, length as `ParseEntry` says, stopping at the first field that does not fit |
| Snft.ReadRecords | src/common/snft.rs:204-206 | reads `n` records as `ParseRecords` says: all of them in order, or the first failing read's error and cursor |
| Snft.ReadSnft | src/common/snft.rs:195-212 | the result and the final cursor are those of `ParseSnft` |
| Checksum.ZeroAdjustment | src/common/snft.rs:317-341 | the same bytes with those at indices 8 to 11 replaced by 0 |
| Checksum.ComputeChecksum | src/common/snft.rs:168-179 | the loop computes `Checksum`: the sum modulo 2^32 of the big-endian words, the last short word padded with zeros at its end |
| Checksum.ComputeTableChecksum | src/common/snft.rs:316-355 | the loop computes `TableChecksum`: for `head` the checksum with bytes 8 to 11 read as 0, for every other tag `compute_checksum` |
| Checksum.ChecksumPadsAtEnd | src/common/snft.rs:172-175 | appending a zero byte to data whose length is not a multiple of 4 leaves the checksum unchanged |
| Checksum.ChecksumOfShortChunk | src/common/snft.rs:172-175 | a short chunk counts as the high-order bytes of its word: `[01]` sums to `0x01000000` |
| Checksum.SumFromUpdate | src/common/snft.rs:168-179 | changing one byte changes the unbounded sum by the change times that byte's weight in its word |
| Checksum.ChecksumDetectsByteChange | src/common/snft.rs:168-179 | changing any single byte changes the checksum |
| Checksum.HeadAdjustmentIgnored | src/common/snft.rs:317-341 | two `head` tables that differ only in bytes 8 to 11 have the same checksum |
| Checksum.HeadDetectsChangeOutsideAdjustment | src/common/snft.rs:316-355 | changing one `head` byte outside 8 to 11 changes its checksum |
| Validate.TableEnd | src/common/snft.rs:259 | the end of a record's region is its offset plus its length, with no overflow |
| Validate.ValidateSnftTables | src/common/snft.rs:252-312 | returns the error of the first record whose region is not in the buffer, whatever the checksums; failing that, `ChecksumMismatch(tag, offset, stored, computed)` for the first mismatch; else `Ok` |
| Validate.ValidateChecksums | src/common/snft.rs:48-50 | validating a directory is validating its records in order |
| Validate.ValidationOutcomeIsUnique | src/common/snft.rs:252-312 | the described outcome is a single result |
| Validate.ValidationSucceedsIffAllMatch | src/common/snft.rs:296-311 | validation succeeds iff every region fits and every stored checksum equals the recomputed one |
| Validate.TableSliceErrorIsOutOfBounds | src/common/snft.rs:257-263 | with the wide sum, a region fails to slice iff it passes the end, always as `OutOfBounds(length, available)`, never `InvalidOffset` |
| Validate.TableEndAsWritten | src/common/snft.rs:259 | the `u32` sum as written: the true end when no wrap occurs, and an end below the offset when it wraps |
| Validate.WrappedTableEndMisreported | src/common/snft.rs:257-263 | offset 16 with length `0xFFFF_FFF8` gives `InvalidOffset(16)` as written, but `OutOfBounds` with the wide sum |
| CommonDecode.FromU32 | src/common/decode.rs:52-65 | each of the seven signatures maps to its own kind and back, iff; every other value is `Unknown` |
| CommonDecode.SignaturesAreTheirTags | src/common/decode.rs:29-50 | the big-endian readings of `00 01 00 00`, `true`, `typ1`, `OTTO`, `wOFF`, `wOF2` and `svg ` are the seven kinds |
| CommonDecode.DecodeFontType | src/common/decode.rs:71-78 | under 4 bytes, `OutOfBounds(4, len)`; otherwise the kind of the big-endian word at offset 0, whatever the position or the stream's order |
| CommonDecode.DecodeFontTypeSeesOnlyFirstWord | src/common/decode.rs:71-78 | two streams with the same first four bytes classify the same |
| CommonDecode.DecodeFontTypeExamples | src/common/decode.rs:71-78 | `00 01 00 00` is `Sfnt`, `OTTO` is `Otto`, `FF FF FF FF` is `Unknown`, and a 3-byte buffer is `OutOfBounds(4, 3)` |
| CommonDecode.DecodeFontOtf | src/common/decode.rs:84-86 | exactly `read_snft` |
| CommonDecode.DecodeFontTtf | src/common/decode.rs:90-92 | exactly `read_snft` |
| CommonDecode.DecodeFontWoff | src/common/decode.rs:96-99 | always `InvalidFormat`, and the stream is untouched |
| CommonDecode.DecodeFontWoff2 | src/common/decode.rs:103-106 | always `InvalidFormat`, and the stream is untouched |
| CommonDecode.DecodeFontSvg | src/common/decode.rs:110-113 | always `InvalidFormat`, and the stream is untouched |
| Sink.Finished | src/optional/decode.rs:75 | `finish` with its error converted by `into`: succeeds iff `finish` does, with its value |
| OptionalDecode.DecodeInto | src/optional/decode.rs:49-76 | a classification error is returned with no sink call; `wOFF`/`wOF2` are `InvalidFormat` with no parse and no call; `svg ` calls only `finish`; every other kind, `Unknown` included, parses like `read_snft`, passes the directory once to `consume_snft`, stops with its converted error or returns `finish`'s result |
| Builtin.BuiltinSink | src/optional/builtin.rs:28-45 | `consume_snft` never fails, keeps the old records as a prefix followed by the directory's records, and keeps the SVG data; `finish` returns the font unchanged; the error conversion is the crate's `From<Infallible>`, `Io(InvalidData)` |
| Builtin.Font.constructor | src/optional/builtin.rs:20-25 | no records and no SVG data |
| Builtin.Font.ConsumeSnft | src/optional/builtin.rs:32-35 | never fails; appends the directory's records after the old ones, which stay a prefix; SVG data unchanged; same as the callback form |
| Builtin.Font.Finish | src/optional/builtin.rs:42-44 | returns the font itself |
| Builtin.BuiltinConsumeCollects | src/optional/builtin.rs:28-35 | consuming directories one after another never fails and collects all their records in order |
| Builtin.BuiltinDecodeYieldsRecords | src/optional/builtin.rs:20-44 | a new font that consumes one directory and finishes holds exactly its records and no SVG data |

## Left out

- **Parallel validation.** The `parallel` (rayon) branch of `validate_snft_tables` (src/common/snft.rs:266-293) is concurrent code. It reports the same first error in directory order, so only the sequential path is modelled.
- **`ByteOrder::detect_native`** (src/io/endian.rs:30-36) depends on the target platform.
- **UTF-8 tag strings.** `String::from_utf8_lossy` in `list_table_tags`, `tag_as_string` and `is_tag_str` is left out. Tags are kept as their four bytes, and `ListTableTags` returns those.
- **`Display` text for the errors** (src/error.rs:54-90) is presentation only. The `Error` and `IoError` enums are transcribed, payloads included.
- **Directory accessors.** These are field reads with nothing to prove:
  - on the header and directory: `version`, `num_tables`, `search_range`, `entry_selector`, `range_shift`, `all_tables`, `all_tables_mut`;
  - on a record: `new`, `checksum`, `offset`, `length`;
  - `is_tag` and `matches_checksum`, and the `SNFT_TAG` constant.
- **Non-compiling parts of src/optional/decode.rs.** `decode_font_file`, which uses an undefined `S` (lines 11-23), and the two `decode` functions (lines 26-41) do not compile.
- **`extract_snft_tables_from_stream`**, which `decode_into` calls, does not exist in the repository. It is replaced by `read_snft`.
- **Wiring.** src/io/file.rs (an empty placeholder), src/lib.rs and the `mod.rs` re-exports are module wiring only.
- **Test assets.** The font files loaded by the tests are not part of this model.
- **The `FontSink` trait.** It is a datatype of callbacks.
  - `&mut self` is threaded as a state value.
  - The call order is recorded in `DecodeInto`'s `calls` output.
  - `consume_svg` is commented out in the source, so the SVG bytes that `decode_into` slices are not passed on.
- **`Infallible`.** Rust's empty type cannot be declared as an empty Dafny type. The built-in sink's error type is a one-value datatype, and every built-in sink call is proved to succeed, so its `into` is never reached. That `into` is still the crate's `From<Infallible>` conversion (src/error.rs:94-98), giving `Io(InvalidData)`.
- **`std::io` results.** `std::io::Result` is never an error in `Read::read`, so `IoRead` returns the count alone. `Seek::seek`'s two `std::io::Error`s are the two constructors of `SeekError`, and their message text is left out.
- **Debug-build overflow panics.** The exact sums in the bounds checks give an error where a debug build would panic on `usize` overflow.
- Validate.ValidateSnftTables: uses the exact sum `offset + length` (`TableEnd`), not the `u32` sum at src/common/snft.rs:259; see the Findings row. With a buffer under 4 GiB, the code as written reports `InvalidOffset` where the model reports `OutOfBounds`. With a larger buffer, a record such as offset 16 with length `0xFFFF_FFF8` slices `Ok` in the model, while the code gives `InvalidOffset(16)` in a release build and panics in a debug build.
- Stream.FontDataStream.Skip: requires `position + bytes` to fit in `usize`. A debug build panics beyond that. A release build wraps and clamps the wrapped value, which the model does not reproduce.
- Stream.FontDataStream.constructor: requires the buffer to hold at most `i64::MAX` bytes. A Rust slice cannot be larger, and `Seek::seek` depends on this in its `as i64` casts.

## Findings

| source | as written | input that shows it | evidently intended | confidence | as-written member | corrected member |
|---|---|---|---|---|---|---|
| src/common/snft.rs:259 | the region end `t.offset + t.length` is a `u32` sum, so it wraps in a release build (a debug build panics) | a record with offset 16 and length `0xFFFF_FFF8` in a buffer under 4 GiB: the end wraps to 8 and `slice_range(16..8)` reports `InvalidOffset(16)` | the region does not fit, so the error is `OutOfBounds(0xFFFF_FFF8, available at 16)` | not executed | Validate.WrappedTableEndMisreported | Validate.TableSliceErrorIsOutOfBounds |
