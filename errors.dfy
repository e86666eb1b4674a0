/** The library's error taxonomy (src/error.rs), without its text formatting. */
module Errors {
  import opened Primitives

  datatype IoError =
    | OutOfBounds(requested: nat, available: nat)
    | SeekBeforeStart
    | InvalidOffset(offset: nat)
    | InvalidTag(tag: Tag)
    | UnsupportedVersion(version: u32)
    | ChecksumMismatch(table: Tag, offset: nat, expected: u32, found: u32)
    | TruncatedTable(table: Tag, expectedLen: nat, foundLen: nat)
    | InvalidUtf8(offset: nat)
    | InvalidGlyphIndex(index: u32)
    | InvalidData

  datatype Error = Io(io: IoError) | InvalidFormat
}
