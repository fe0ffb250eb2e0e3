/** The save file container: a 16-byte header (magic "ASVS", schema
    version, codec, reserved byte, payload length, CRC-32 of the payload),
    all little-endian, followed by the compressed payload. */
module SaveFormat {
  import opened Base

  type byte = x: int | 0 <= x < 0x100
  type u16 = x: int | 0 <= x < 0x1_0000
  type u32 = x: int | 0 <= x < 0x1_0000_0000

  /** "ASVS" in ASCII. */
  const Magic: seq<byte> := [0x41, 0x53, 0x56, 0x53]
  const CodecLz4: byte := 1
  /** The schema version files are written with. */
  const SaveSchemaVersion: u16 := 2
  const HeaderLen: nat := 16

  function U16Le(v: u16): (r: seq<byte>)
    ensures |r| == 2
  {
    [v % 0x100, v / 0x100]
  }

  function U32Le(v: u32): (r: seq<byte>)
    ensures |r| == 4
  {
    [v % 0x100, (v / 0x100) % 0x100, (v / 0x1_0000) % 0x100, v / 0x100_0000]
  }

  function FromLe2(b: seq<byte>): u16
    requires |b| == 2
  {
    b[0] as int + 0x100 * (b[1] as int)
  }

  function FromLe4(b: seq<byte>): u32
    requires |b| == 4
  {
    b[0] as int + 0x100 * (b[1] as int) + 0x1_0000 * (b[2] as int) + 0x100_0000 * (b[3] as int)
  }

  lemma Le2RoundTrip(v: u16)
    ensures FromLe2(U16Le(v)) == v
  {
  }

  lemma Le4RoundTrip(v: u32)
    ensures FromLe4(U32Le(v)) == v
  {
    var q := v / 0x100;
    var q2 := q / 0x100;
    assert v == v % 0x100 + 0x100 * q;
    assert q == q % 0x100 + 0x100 * q2;
    assert q2 == q2 % 0x100 + 0x100 * (v / 0x100_0000);
  }

  /** The header of `write_awsv`. */
  function HeaderBytes(version: u16, codec: byte, len: u32, crc: u32): (h: seq<byte>)
    ensures |h| == HeaderLen
  {
    Magic + U16Le(version) + [codec, 0] + U32Le(len) + U32Le(crc)
  }

  /** A whole file: the header, with the payload length cast to 32 bits
      (wrapping), then the payload. */
  function FileBytes(payload: seq<byte>, crc: u32): seq<byte> {
    HeaderBytes(SaveSchemaVersion, CodecLz4, |payload| % 0x1_0000_0000, crc) + payload
  }

  /** The buffer building of `write_awsv`, given the compressed payload and
      its CRC. */
  method BuildFile(payload: seq<byte>, crc: u32) returns (buf: seq<byte>)
    ensures buf == FileBytes(payload, crc)
    ensures |buf| == HeaderLen + |payload| && buf[HeaderLen..] == payload
  {
    buf := [];
    buf := buf + Magic;
    buf := buf + U16Le(SaveSchemaVersion);
    buf := buf + [CodecLz4];
    buf := buf + [0];
    buf := buf + U32Le(|payload| % 0x1_0000_0000);
    buf := buf + U32Le(crc);
    buf := buf + payload;
  }

  datatype SaveError =
    | ShortRead
    | BadMagic
    | CrcMismatch(expected: u32, got: u32)
    | UnknownCodec(codec: byte)
    | DecompressFailed
    | DecodeFailed(version: u16)
    | UnknownVersion(version: u16)

  /** A checked, decompressed payload and the version its header names. */
  datatype AnySave = AnySave(version: u16, blob: seq<byte>)

  /** `read_any_version` on the file's bytes, with the CRC-32 and LZ4
      decompression given: the header is read whole, the magic checked,
      exactly the announced length of payload read, its CRC compared, and
      the codec checked; bytes after the payload are not read. */
  function ReadAnyVersion(file: seq<byte>, crc32: seq<byte> -> u32, lz4: seq<byte> -> Option<seq<byte>>)
    : (r: Result<AnySave, SaveError>)
    ensures r.Ok? ==>
      |file| >= HeaderLen && file[..4] == Magic && file[6] == CodecLz4
      && var len := FromLe4(file[8..12]);
      |file| >= HeaderLen + len
      && crc32(file[HeaderLen..HeaderLen + len]) == FromLe4(file[12..16])
      && r.value.version == FromLe2(file[4..6]) && lz4(file[HeaderLen..HeaderLen + len]) == Some(r.value.blob)
    ensures |file| >= HeaderLen && file[..4] != Magic ==> r == Err(BadMagic)
  {
    if |file| < HeaderLen then Err(ShortRead)
    else if file[..4] != Magic then Err(BadMagic)
    else
      var version := FromLe2(file[4..6]);
      var codec := file[6];
      var len := FromLe4(file[8..12]);
      var crc := FromLe4(file[12..16]);
      if |file| - HeaderLen < len then Err(ShortRead)
      else
        var payload := file[HeaderLen..HeaderLen + len];
        var got := crc32(payload);
        if got != crc then Err(CrcMismatch(crc, got))
        else if codec != CodecLz4 then Err(UnknownCodec(codec))
        else match lz4(payload)
          case None => Err(DecompressFailed)
          case Some(data) => Ok(AnySave(version, data))
  }

  /** Reading back a file just written recovers the current version and the
      decompressed payload, whatever follows it on disk. */
  lemma WriteThenRead(payload: seq<byte>, rest: seq<byte>, crc32: seq<byte> -> u32,
                      lz4: seq<byte> -> Option<seq<byte>>)
    requires |payload| < 0x1_0000_0000 && lz4(payload).Some?
    ensures ReadAnyVersion(FileBytes(payload, crc32(payload)) + rest, crc32, lz4)
      == Ok(AnySave(SaveSchemaVersion, lz4(payload).value))
  {
    var h := HeaderBytes(SaveSchemaVersion, CodecLz4, |payload|, crc32(payload));
    var f := FileBytes(payload, crc32(payload)) + rest;
    assert f == h + (payload + rest);
    HeaderFields(SaveSchemaVersion, CodecLz4, |payload|, crc32(payload), payload + rest);
    assert f[HeaderLen..HeaderLen + |payload|] == payload;
    ReadAccepts(f, crc32, lz4);
  }

  /** A file whose header checks out is read as its version and payload. */
  lemma ReadAccepts(f: seq<byte>, crc32: seq<byte> -> u32, lz4: seq<byte> -> Option<seq<byte>>)
    requires |f| >= HeaderLen && f[..4] == Magic && f[6] == CodecLz4
    requires |f| - HeaderLen >= FromLe4(f[8..12])
    requires crc32(f[HeaderLen..HeaderLen + FromLe4(f[8..12])]) == FromLe4(f[12..16])
    requires lz4(f[HeaderLen..HeaderLen + FromLe4(f[8..12])]).Some?
    ensures ReadAnyVersion(f, crc32, lz4)
      == Ok(AnySave(FromLe2(f[4..6]), lz4(f[HeaderLen..HeaderLen + FromLe4(f[8..12])]).value))
  {
  }

  /** Every header field is recovered from the bytes written for it. */
  lemma HeaderFields(version: u16, codec: byte, len: u32, crc: u32, tail: seq<byte>)
    ensures var f := HeaderBytes(version, codec, len, crc) + tail;
      f[..4] == Magic && FromLe2(f[4..6]) == version && f[6] == codec && f[7] == 0
      && FromLe4(f[8..12]) == len && FromLe4(f[12..16]) == crc && f[16..] == tail
  {
    var f := HeaderBytes(version, codec, len, crc) + tail;
    assert f[4..6] == U16Le(version);
    assert f[8..12] == U32Le(len);
    assert f[12..16] == U32Le(crc);
    Le2RoundTrip(version);
    Le4RoundTrip(len);
    Le4RoundTrip(crc);
  }

  /** A corrupted payload (its CRC no longer matching) is rejected. */
  lemma CorruptionDetected(payload: seq<byte>, bad: seq<byte>, crc32: seq<byte> -> u32,
                           lz4: seq<byte> -> Option<seq<byte>>)
    requires |payload| < 0x1_0000_0000 && |bad| == |payload| && crc32(bad) != crc32(payload)
    ensures ReadAnyVersion(HeaderBytes(SaveSchemaVersion, CodecLz4, |payload|, crc32(payload)) + bad, crc32, lz4)
      == Err(CrcMismatch(crc32(payload), crc32(bad)))
  {
    var f := HeaderBytes(SaveSchemaVersion, CodecLz4, |payload|, crc32(payload)) + bad;
    HeaderFields(SaveSchemaVersion, CodecLz4, |payload|, crc32(payload), bad);
    assert f[HeaderLen..HeaderLen + |bad|] == bad;
  }

  /** Only the LZ4 codec is accepted. */
  lemma OtherCodecRejected(codec: byte, payload: seq<byte>, crc32: seq<byte> -> u32,
                           lz4: seq<byte> -> Option<seq<byte>>)
    requires codec != CodecLz4 && |payload| < 0x1_0000_0000
    ensures ReadAnyVersion(HeaderBytes(SaveSchemaVersion, codec, |payload|, crc32(payload)) + payload, crc32, lz4)
      == Err(UnknownCodec(codec))
  {
    var f := HeaderBytes(SaveSchemaVersion, codec, |payload|, crc32(payload)) + payload;
    HeaderFields(SaveSchemaVersion, codec, |payload|, crc32(payload), payload);
    assert f[HeaderLen..HeaderLen + |payload|] == payload;
  }
}
