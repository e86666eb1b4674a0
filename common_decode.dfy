/** Signature classification and the per-format decoders (src/common/decode.rs). */
module CommonDecode {
  import opened Primitives
  import opened Wrappers
  import opened Errors
  import opened Endian
  import opened Stream
  import opened Snft

  /** The container kinds the first four bytes of a file announce. */
  datatype FontFileHeader = Sfnt | True | Typ1 | Otto | Woff | Wof2 | Svg | Unknown

  const SFNT_SIGNATURE: u32 := 0x0001_0000
  const TRUE_SIGNATURE: u32 := 0x7472_7565
  const TYP1_SIGNATURE: u32 := 0x7479_7031
  const OTTO_SIGNATURE: u32 := 0x4F54_544F
  const WOFF_SIGNATURE: u32 := 0x774F_4646
  const WOF2_SIGNATURE: u32 := 0x774F_4632
  const SVG_SIGNATURE: u32 := 0x7376_6720

  /** `From<u32> for FontFileHeader`: each of the seven signatures names its kind, and every
      other value is `Unknown`. */
  function FromU32(value: u32): (h: FontFileHeader)
    ensures h == Sfnt <==> value == SFNT_SIGNATURE
    ensures h == True <==> value == TRUE_SIGNATURE
    ensures h == Typ1 <==> value == TYP1_SIGNATURE
    ensures h == Otto <==> value == OTTO_SIGNATURE
    ensures h == Woff <==> value == WOFF_SIGNATURE
    ensures h == Wof2 <==> value == WOF2_SIGNATURE
    ensures h == Svg <==> value == SVG_SIGNATURE
  {
    if value == SFNT_SIGNATURE then Sfnt
    else if value == TRUE_SIGNATURE then True
    else if value == TYP1_SIGNATURE then Typ1
    else if value == OTTO_SIGNATURE then Otto
    else if value == WOFF_SIGNATURE then Woff
    else if value == WOF2_SIGNATURE then Wof2
    else if value == SVG_SIGNATURE then Svg
    else Unknown
  }

  /** The signatures other than the TrueType version number are four ASCII characters read
      big-endian: `true`, `typ1`, `OTTO`, `wOFF`, `wOF2` and `svg `; the sfnt version is the
      bytes 00 01 00 00. */
  lemma SignaturesAreTheirTags()
    ensures FromU32(U32From(BigEndian, [0x00, 0x01, 0x00, 0x00])) == Sfnt
    ensures FromU32(U32From(BigEndian, [0x74, 0x72, 0x75, 0x65])) == True
    ensures FromU32(U32From(BigEndian, [0x74, 0x79, 0x70, 0x31])) == Typ1
    ensures FromU32(U32From(BigEndian, [0x4F, 0x54, 0x54, 0x4F])) == Otto
    ensures FromU32(U32From(BigEndian, [0x77, 0x4F, 0x46, 0x46])) == Woff
    ensures FromU32(U32From(BigEndian, [0x77, 0x4F, 0x46, 0x32])) == Wof2
    ensures FromU32(U32From(BigEndian, [0x73, 0x76, 0x67, 0x20])) == Svg
  {
    assert U32From(BigEndian, [0x00, 0x01, 0x00, 0x00]) == 0x0001_0000;
    assert U32From(BigEndian, [0x74, 0x72, 0x75, 0x65]) == 0x7472_7565;
    assert U32From(BigEndian, [0x74, 0x79, 0x70, 0x31]) == 0x7479_7031;
    assert U32From(BigEndian, [0x4F, 0x54, 0x54, 0x4F]) == 0x4F54_544F;
    assert U32From(BigEndian, [0x77, 0x4F, 0x46, 0x46]) == 0x774F_4646;
    assert U32From(BigEndian, [0x77, 0x4F, 0x46, 0x32]) == 0x774F_4632;
    assert U32From(BigEndian, [0x73, 0x76, 0x67, 0x20]) == 0x7376_6720;
  }

  /** `decode_font_type`: the kind announced by the big-endian word at offset 0, taken with
      `slice_range(0..4)`, so neither the cursor's position nor its byte order plays a part
      and the position does not move. A buffer of fewer than four bytes is out of bounds. */
  function DecodeFontType(stream: FontDataStream): (r: Result<FontFileHeader, Error>)
    ensures |stream.data| < 4 ==> r == Err(Io(OutOfBounds(4, |stream.data|)))
    ensures |stream.data| >= 4 ==>
      r == Ok(FromU32(U32From(BigEndian, stream.data[..4])))
  {
    var bytes :- stream.SliceRange(0, 4);
    Ok(FromU32(U32From(BigEndian, bytes)))
  }

  /** The classification depends on the first four bytes and nothing else. */
  lemma DecodeFontTypeSeesOnlyFirstWord(s1: FontDataStream, s2: FontDataStream)
    requires |s1.data| >= 4 && |s2.data| >= 4 && s1.data[..4] == s2.data[..4]
    ensures DecodeFontType(s1) == DecodeFontType(s2)
  {
  }

  /** The classifications the library's own examples expect, for a stream at any
      position and with either byte order. */
  lemma DecodeFontTypeExamples(stream: FontDataStream)
    ensures stream.data == [0x00, 0x01, 0x00, 0x00] ==> DecodeFontType(stream) == Ok(Sfnt)
    ensures stream.data == [0x4F, 0x54, 0x54, 0x4F] ==> DecodeFontType(stream) == Ok(Otto)
    ensures stream.data == [0xFF, 0xFF, 0xFF, 0xFF] ==> DecodeFontType(stream) == Ok(Unknown)
    ensures stream.data == [0x4F, 0x54, 0x54] ==> DecodeFontType(stream) == Err(Io(OutOfBounds(4, 3)))
  {
    if stream.data == [0x00, 0x01, 0x00, 0x00] {
      assert stream.data[..4] == [0x00, 0x01, 0x00, 0x00];
      SignaturesAreTheirTags();
    }
    if stream.data == [0x4F, 0x54, 0x54, 0x4F] {
      assert stream.data[..4] == [0x4F, 0x54, 0x54, 0x4F];
      SignaturesAreTheirTags();
    }
    if stream.data == [0xFF, 0xFF, 0xFF, 0xFF] {
      assert stream.data[..4] == [0xFF, 0xFF, 0xFF, 0xFF];
      assert U32From(BigEndian, [0xFF, 0xFF, 0xFF, 0xFF]) == 0xFFFF_FFFF;
    }
  }

  /** `decode_font_otf`: the directory parse. */
  method DecodeFontOtf(stream: FontDataStream) returns (r: Result<SnftTable, Error>)
    requires stream.Valid()
    modifies stream`position
    ensures stream.Valid()
    ensures var p := ParseSnft(stream.data, old(stream.position), stream.endianness);
      r == p.result && stream.position == p.next
  {
    r := ReadSnft(stream);
  }

  /** `decode_font_ttf`: the same directory parse. */
  method DecodeFontTtf(stream: FontDataStream) returns (r: Result<SnftTable, Error>)
    requires stream.Valid()
    modifies stream`position
    ensures stream.Valid()
    ensures var p := ParseSnft(stream.data, old(stream.position), stream.endianness);
      r == p.result && stream.position == p.next
  {
    r := ReadSnft(stream);
  }

  /** `decode_font_woff`: not implemented, always `InvalidFormat`; the stream is untouched. */
  method DecodeFontWoff(stream: FontDataStream) returns (r: Result<SnftTable, Error>)
    ensures r == Err(InvalidFormat)
  {
    r := Err(InvalidFormat);
  }

  /** `decode_font_woff2`: not implemented, always `InvalidFormat`; the stream is untouched. */
  method DecodeFontWoff2(stream: FontDataStream) returns (r: Result<SnftTable, Error>)
    ensures r == Err(InvalidFormat)
  {
    r := Err(InvalidFormat);
  }

  /** `decode_font_svg`: not implemented, always `InvalidFormat`; the stream is untouched. */
  method DecodeFontSvg(stream: FontDataStream) returns (r: Result<SnftTable, Error>)
    ensures r == Err(InvalidFormat)
  {
    r := Err(InvalidFormat);
  }
}
