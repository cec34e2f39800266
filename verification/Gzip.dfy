/** The gzip member format of section 2.3 of RFC 1952 as `compress` writes it: a fixed ten-byte
    header, a raw deflate stream produced chunk by chunk, the CRC-32 and the length modulo 2^32.
    Deflate, inflate and CRC-32 belong to the bundled miniz library; they enter as a `Codec` whose
    laws are stated in `Lawful`. */
module Gzip {
  import opened Basics

  type byte = x: int | 0 <= x < 256
  type Bytes = seq<byte>

  /** `emit(fed, chunk)` is what the deflater outputs for `chunk` after the chunks `fed`;
      `finish(fed)` is what MZ_FINISH outputs; `crc` continues a checksum over more bytes. */
  datatype Codec = Codec(
    emit: (seq<Bytes>, Bytes) -> Bytes,
    finish: seq<Bytes> -> Bytes,
    inflate: Bytes -> Option<Bytes>,
    crc: (nat, Bytes) -> nat)

  function Flatten(chunks: seq<Bytes>): (all: Bytes) {
    if chunks == [] then [] else Flatten(chunks[..|chunks| - 1]) + chunks[|chunks| - 1]
  }

  /** Everything the deflater has output for the chunks so far. */
  function Emitted(c: Codec, chunks: seq<Bytes>): (out: Bytes) {
    if chunks == [] then []
    else Emitted(c, chunks[..|chunks| - 1]) + c.emit(chunks[..|chunks| - 1], chunks[|chunks| - 1])
  }

  /** The laws assumed of the library: inflating a finished stream gives back the input however it
      was cut into chunks, and the checksum may be continued. */
  ghost predicate Lawful(c: Codec) {
    && (forall chunks: seq<Bytes> :: c.inflate(Emitted(c, chunks) + c.finish(chunks)) == Some(Flatten(chunks)))
    && (forall v: nat, a: Bytes, b: Bytes :: c.crc(c.crc(v, a), b) == c.crc(v, a + b))
    && (forall v: nat, a: Bytes :: a == [] ==> c.crc(v, a) == v)
  }

  const HEADER: Bytes := [0x1f, 0x8b, 8, 0, 0, 0, 0, 0, 4, 255]

  /** Four bytes, least significant first, of the value truncated to 32 bits. */
  function LittleEndian32(n: nat): (b: Bytes)
    ensures |b| == 4
  {
    var n1 := n / 256;
    var n2 := n1 / 256;
    var n3 := n2 / 256;
    [n % 256, n1 % 256, n2 % 256, n3 % 256]
  }

  function FromLittleEndian32(b: Bytes): (n: nat)
    requires |b| == 4
  {
    var low: int, second: int, third: int, high: int := b[0], b[1], b[2], b[3];
    low + 0x100 * second + 0x1_0000 * third + 0x100_0000 * high
  }

  lemma LittleEndianRoundTrip(n: nat)
    ensures FromLittleEndian32(LittleEndian32(n)) == n % 0x1_0000_0000
  {
    var n1 := n / 256;
    var n2 := n1 / 256;
    var n3 := n2 / 256;
    var d0, d1, d2, d3, k := n % 256, n1 % 256, n2 % 256, n3 % 256, n3 / 256;
    var b := LittleEndian32(n);
    assert b[0] == d0 && b[1] == d1 && b[2] == d2 && b[3] == d3;
    Positional(n, n1, n2, n3, d0, d1, d2, d3, k);
    Remainder32(n, FromLittleEndian32(b), k);
  }

  lemma Positional(n: int, n1: int, n2: int, n3: int, d0: int, d1: int, d2: int, d3: int, k: int)
    requires n == d0 + 256 * n1 && n1 == d1 + 256 * n2 && n2 == d2 + 256 * n3 && n3 == d3 + 256 * k
    ensures n == d0 + 0x100 * d1 + 0x1_0000 * d2 + 0x100_0000 * d3 + 0x1_0000_0000 * k
  {
  }

  lemma Remainder32(n: int, low: int, k: int)
    requires 0 <= low < 0x1_0000_0000 && n == low + 0x1_0000_0000 * k
    ensures n % 0x1_0000_0000 == low
  {
  }

  /** A reader of the format: fixed magic, method and flags, then the stream, then both checks. */
  function Gunzip(c: Codec, data: Bytes): (content: Option<Bytes>) {
    if |data| < 18 || data[0] != 0x1f || data[1] != 0x8b || data[2] != 8 || data[3] != 0 then None
    else
      var n := |data|;
      match c.inflate(data[10..n - 8])
      case None => None
      case Some(out) =>
        if FromLittleEndian32(data[n - 8..n - 4]) != c.crc(0, out) % 0x1_0000_0000 then None
        else if FromLittleEndian32(data[n - 4..]) != |out| % 0x1_0000_0000 then None
        else Some(out)
  }

  /** What the worker writes after the last chunk. */
  function Trailer(c: Codec, chunks: seq<Bytes>, crc: nat, size: nat): (data: Bytes) {
    c.finish(chunks) + LittleEndian32(crc) + LittleEndian32(size)
  }

  /** What the worker has written to the temporary file when it closes it. */
  function Member(c: Codec, chunks: seq<Bytes>, crc: nat, size: nat): (data: Bytes) {
    HEADER + Emitted(c, chunks) + Trailer(c, chunks, crc, size)
  }

  /** The member written for any chunking of a content reads back as exactly that content. */
  lemma MemberRoundTrip(c: Codec, chunks: seq<Bytes>)
    requires Lawful(c)
    ensures var all := Flatten(chunks);
            Gunzip(c, Member(c, chunks, c.crc(0, all), |all|)) == Some(all)
  {
    var all := Flatten(chunks);
    var crc := c.crc(0, all);
    var stream := Emitted(c, chunks) + c.finish(chunks);
    assert Member(c, chunks, crc, |all|) == HEADER + stream + LittleEndian32(crc) + LittleEndian32(|all|);
    FrameParts(stream, LittleEndian32(crc), LittleEndian32(|all|));
    LittleEndianRoundTrip(crc);
    LittleEndianRoundTrip(|all|);
  }

  lemma FrameParts(stream: Bytes, crc: Bytes, size: Bytes)
    requires |crc| == |size| == 4
    ensures var data := HEADER + stream + crc + size;
            var n := |data|;
            && n >= 18
            && data[0] == 0x1f && data[1] == 0x8b && data[2] == 8 && data[3] == 0
            && data[10..n - 8] == stream
            && data[n - 8..n - 4] == crc
            && data[n - 4..] == size
  {
  }

  /** Where the encoder stands after feeding `chunks`: its checksum and the file written so far. */
  predicate EncoderAt(c: Codec, chunks: seq<Bytes>, crc: nat, file: Bytes) {
    crc == c.crc(0, Flatten(chunks)) && file == HEADER + Emitted(c, chunks)
  }

  lemma EncoderStart(c: Codec)
    requires Lawful(c)
    ensures EncoderAt(c, [], 0, HEADER)
  {
    assert c.crc(0, []) == 0;
  }

  lemma EncoderFeed(c: Codec, chunks: seq<Bytes>, crc: nat, file: Bytes, chunk: Bytes)
    requires Lawful(c) && EncoderAt(c, chunks, crc, file)
    ensures EncoderAt(c, chunks + [chunk], c.crc(crc, chunk), file + c.emit(chunks, chunk))
  {
    FlattenSnoc(chunks, chunk);
    EmittedSnoc(c, chunks, chunk);
    CrcContinues(c, Flatten(chunks), chunk);
    Associate(HEADER, Emitted(c, chunks), c.emit(chunks, chunk));
  }

  lemma CrcContinues(c: Codec, a: Bytes, b: Bytes)
    requires Lawful(c)
    ensures c.crc(c.crc(0, a), b) == c.crc(0, a + b)
  {
  }

  lemma Associate(a: Bytes, b: Bytes, c: Bytes)
    ensures a + (b + c) == (a + b) + c
  {
  }

  lemma EncoderFinish(c: Codec, chunks: seq<Bytes>, crc: nat, file: Bytes)
    requires Lawful(c) && EncoderAt(c, chunks, crc, file)
    ensures Gunzip(c, file + Trailer(c, chunks, crc, |Flatten(chunks)|)) == Some(Flatten(chunks))
  {
    MemberRoundTrip(c, chunks);
    var all := Flatten(chunks);
    assert file + Trailer(c, chunks, crc, |all|) == Member(c, chunks, c.crc(0, all), |all|);
  }

  lemma FlattenSnoc(chunks: seq<Bytes>, chunk: Bytes)
    ensures Flatten(chunks + [chunk]) == Flatten(chunks) + chunk
  {
    assert (chunks + [chunk])[..|chunks|] == chunks;
  }

  lemma EmittedSnoc(c: Codec, chunks: seq<Bytes>, chunk: Bytes)
    ensures Emitted(c, chunks + [chunk]) == Emitted(c, chunks) + c.emit(chunks, chunk)
  {
    assert (chunks + [chunk])[..|chunks|] == chunks;
  }
}
