/**
 The chunked transfer coding: the two decoders `read_chunked_payload` and
 `read_chunked`, and the encoder `send_chunked`.

 Section 3.6.1 of RFC 2616 defines the coding; section 4.5 of RFC 3507 adds the
 `ieof` extension of the last chunk.
 */
module Chunked {
  import opened Octets
  import opened Numerals
  import opened Text
  import opened Wire

  datatype Chunk = Chunk(size: Word, extension: string, data: string)

  type Garbage = nat -> Word

  // ----- What the decoders compute -----

  const NO_CHUNK := Chunk(0, "", "")

  /** `read_chunk_header`: a part that is missing leaves the chunk as it was. */
  function HeaderRead(chunk: Chunk, s: In, garbage: Garbage): (Chunk, In) {
    var (line, s1) := LineRead(s, false);
    var parts := Pieces(line, ";");
    var size: Word := if parts[0] != "" then HexToDec(parts[0], garbage(|s1.rest|)) else chunk.size;
    (chunk.(size := size, extension := if |parts| == 2 then Trim(parts[1]) else chunk.extension), s1)
  }

  /** `read_chunk`.  A size of 2^31 or more is negative as an `int`, and nothing is read for it. */
  function ChunkRead(s: In, garbage: Garbage): (Chunk, In) {
    var (chunk, s1) := HeaderRead(NO_CHUNK, s, garbage);
    var (data, s2) := if chunk.size > 0 then DataRead(s1, ToInt32(chunk.size)) else ("", s1);
    (chunk.(data := data), DataRead(s2, 2).1)
  }

  lemma ChunkReadShrinks(s: In, garbage: Garbage)
    ensures var (chunk, s') := ChunkRead(s, garbage); |chunk.data| + |s'.rest| <= |s.rest|
  {
    var (chunk, s1) := HeaderRead(NO_CHUNK, s, garbage);
    ReadersShrink(s, false, 0);
    ReadersShrink(s1, false, ToInt32(chunk.size));
    var s2 := if chunk.size > 0 then DataRead(s1, ToInt32(chunk.size)).1 else s1;
    ReadersShrink(s2, false, 2);
  }

  /** `read_chunked_payload`: the payload, the `ieof` flag and the stream left behind. */
  function PayloadRead(s: In, payload: string, garbage: Garbage): (string, bool, In)
    decreases |s.rest|
  {
    ChunkReadShrinks(s, garbage);
    var (chunk, s1) := ChunkRead(s, garbage);
    if |chunk.data| == chunk.size && chunk.size > 0 then PayloadRead(s1, payload + chunk.data, garbage)
    else (payload + chunk.data, chunk.extension == "ieof", s1)
  }

  /** `read_chunk_size`. */
  function SizeRead(s: In, garbage: Garbage): (Word, In) {
    var (line, s1) := LineRead(s, false);
    (HexToDec(Pieces(line, ";")[0], garbage(|s1.rest|)), s1)
  }

  lemma SizeReadShrinks(s: In, garbage: Garbage)
    ensures |SizeRead(s, garbage).1.rest| <= |s.rest|
  {
    ReadersShrink(s, false, 0);
  }

  /** The trailer loop of `read_chunked`: lines are dropped up to the first of at most two octets. */
  function TrailerSkipped(s: In): In
    decreases |s.rest|
  {
    var (line, s1) := LineRead(s, true);
    if |line| > 2 then TrailerSkipped(s1) else s1
  }

  /** `read_chunked`. */
  function ChunkedRead(s: In, data: string, garbage: Garbage): (string, In)
    decreases |s.rest|
  {
    var (size, s1) := SizeRead(s, garbage);
    if size == 0 then (data, TrailerSkipped(s1))
    else
      var (block, s2) := DataRead(s1, ToInt32(size));
      if |block| != size then (data + block, TrailerSkipped(s2))
      else
        SizeReadShrinks(s, garbage);
        ReadersShrink(s1, false, ToInt32(size));
        ReadersShrink(s2, false, 2);
        ChunkedRead(DataRead(s2, 2).1, data + block, garbage)
  }

  // ----- The decoders as the library runs them -----

  method ReadChunkHeader(socket: Socket, chunk: Chunk) returns (filled: Chunk)
    modifies socket`unread, socket`good
    ensures (filled, socket.Incoming()) == HeaderRead(chunk, old(socket.Incoming()), socket.stale)
  {
    filled := chunk;
    var line := socket.ReadLine(false);
    var parts := Split(line, ";");
    if |parts[0]| > 0 {
      filled := filled.(size := HexToDec(parts[0], socket.stale(|socket.unread|)));
    }
    if |parts| == 2 {
      filled := filled.(extension := Trim(parts[1]));
    }
  }

  method ReadChunk(socket: Socket) returns (chunk: Chunk)
    modifies socket`unread, socket`good
    ensures (chunk, socket.Incoming()) == ChunkRead(old(socket.Incoming()), socket.stale)
  {
    chunk := ReadChunkHeader(socket, NO_CHUNK);
    if chunk.size > 0 {
      var data := socket.ReadData(ToInt32(chunk.size));
      chunk := chunk.(data := data);
    }
    var _ := socket.ReadData(2);
  }

  method ReadChunkedPayload(socket: Socket, payload: string) returns (extended: string, ieof: bool)
    modifies socket`unread, socket`good
    ensures (extended, ieof, socket.Incoming()) == PayloadRead(old(socket.Incoming()), payload, socket.stale)
  {
    extended := payload;
    var chunk;
    while true
      invariant PayloadRead(old(socket.Incoming()), payload, socket.stale) ==
                PayloadRead(socket.Incoming(), extended, socket.stale)
      decreases |socket.unread|
    {
      ChunkReadShrinks(socket.Incoming(), socket.stale);
      chunk := ReadChunk(socket);
      extended := extended + chunk.data;
      if |chunk.data| != chunk.size || !(chunk.size > 0) {
        break;
      }
    }
    ieof := chunk.extension == "ieof";
  }

  method ReadChunkSize(socket: Socket) returns (size: Word)
    modifies socket`unread, socket`good
    ensures (size, socket.Incoming()) == SizeRead(old(socket.Incoming()), socket.stale)
  {
    var line := socket.ReadLine(false);
    var parts := Split(line, ";");
    size := HexToDec(parts[0], socket.stale(|socket.unread|));
  }

  method ReadChunked(socket: Socket) returns (data: string)
    modifies socket`unread, socket`good
    ensures (data, socket.Incoming()) == ChunkedRead(old(socket.Incoming()), "", socket.stale)
  {
    data := "";
    while true
      invariant ChunkedRead(socket.Incoming(), data, socket.stale) ==
                ChunkedRead(old(socket.Incoming()), "", socket.stale)
      decreases |socket.unread|
    {
      SizeReadShrinks(socket.Incoming(), socket.stale);
      var size := ReadChunkSize(socket);
      if size == 0 {
        break;
      }
      ReadersShrink(socket.Incoming(), false, ToInt32(size));
      var block := socket.ReadData(ToInt32(size));
      data := data + block;
      if |block| != size {
        break;
      }
      ReadersShrink(socket.Incoming(), false, 2);
      var _ := socket.ReadData(2);
    }
    SkipTrailer(socket);
  }

  /** The second loop of `read_chunked`. */
  method SkipTrailer(socket: Socket)
    modifies socket`unread, socket`good
    ensures socket.Incoming() == TrailerSkipped(old(socket.Incoming()))
  {
    while true
      invariant TrailerSkipped(old(socket.Incoming())) == TrailerSkipped(socket.Incoming())
      decreases |socket.unread|
    {
      var line := socket.ReadLine(true);
      if |line| <= 2 {
        break;
      }
    }
  }

  // ----- Well-formed chunked bodies -----

  /** One chunk on the wire: size numeral, what follows it on the line, and the data. */
  datatype WireChunk = WireChunk(numeral: string, suffix: string, data: string)

  /** A whole chunked body: its chunks, then the last-chunk line. */
  datatype Coded = Coded(chunks: seq<WireChunk>, zero: string, suffix: string)

  /** Chunk extensions: nothing, or anything after a semicolon that stays on the line. */
  ghost predicate LegalSuffix(suffix: string) {
    (suffix != "" ==> suffix[0] == ';') && LineText(suffix)
  }

  ghost predicate LegalChunk(c: WireChunk) {
    && IsNumeral(c.numeral, 16) && Value(c.numeral, 16) == |c.data|
    && 0 < |c.data| < 0x8000_0000
    && LegalSuffix(c.suffix)
  }

  ghost predicate Legal(body: Coded) {
    && (forall i :: 0 <= i < |body.chunks| ==> LegalChunk(body.chunks[i]))
    && IsNumeral(body.zero, 16) && Value(body.zero, 16) == 0
    && LegalSuffix(body.suffix)
  }

  /** The one extension of a chunk line; several, or none, count as no extension. */
  function Extension(suffix: string): string {
    if suffix != "" && ';' !in suffix[1..] then Trim(suffix[1..]) else ""
  }

  function ChunkOctets(c: WireChunk): string {
    c.numeral + c.suffix + CRLF + c.data + CRLF
  }

  function ChunksOctets(chunks: seq<WireChunk>): string {
    if chunks == [] then "" else ChunkOctets(chunks[0]) + ChunksOctets(chunks[1..])
  }

  function LastLine(body: Coded): string {
    body.zero + body.suffix + CRLF
  }

  /** The octets of the body, without trailer. */
  function Encoding(body: Coded): string {
    ChunksOctets(body.chunks) + LastLine(body) + CRLF
  }

  function ChunksData(chunks: seq<WireChunk>): string {
    if chunks == [] then "" else chunks[0].data + ChunksData(chunks[1..])
  }

  /** What the body carries. */
  function Data(body: Coded): string {
    ChunksData(body.chunks)
  }

  predicate Ieof(body: Coded) {
    Extension(body.suffix) == "ieof"
  }

  // ----- Decoding -----

  lemma HeaderLineText(numeral: string, suffix: string)
    requires IsNumeral(numeral, 16) && LegalSuffix(suffix)
    ensures LineText(numeral + suffix)
  {
    NumeralText(numeral, 16);
    var line := numeral + suffix;
    forall k | 0 <= k < |line|
      ensures Positive(line[k]) && !EndsCrlf(line, k)
    {
      if k > |numeral| {
        assert !EndsCrlf(suffix, k - |numeral|);
      }
    }
  }

  lemma HeaderLinePieces(numeral: string, suffix: string)
    requires IsNumeral(numeral, 16) && LegalSuffix(suffix)
    ensures var parts := Pieces(numeral + suffix, ";");
      parts[0] == numeral && (if |parts| == 2 then Trim(parts[1]) else "") == Extension(suffix)
  {
    hide Trim, Pieces, Value;
    assert Free(numeral, ";") by {
      NumeralText(numeral, 16);
    }
    if suffix == "" {
      assert numeral + suffix == numeral;
      FirstPiece(numeral, ';', "", ";");
    } else {
      var text := suffix[1..];
      assert suffix == [';'] + text;
      Associative(numeral, [';'], text);
      FirstPiece(numeral, ';', text, ";");
      if ';' in text {
        ManyPieces(text, ';');
      } else {
        FirstPiece(text, ';', "", ";");
      }
    }
  }

  /** The line of a well-formed chunk is understood exactly. */
  lemma HeaderReadExact(numeral: string, suffix: string, tail: string, garbage: Garbage)
    requires IsNumeral(numeral, 16) && Value(numeral, 16) < 0x8000_0000 && LegalSuffix(suffix)
    ensures HeaderRead(NO_CHUNK, In(numeral + suffix + CRLF + tail, true), garbage) ==
            (Chunk(Value(numeral, 16), Extension(suffix), ""), In(tail, true))
    ensures SizeRead(In(numeral + suffix + CRLF + tail, true), garbage) ==
            (Value(numeral, 16), In(tail, true))
  {
    HeaderLineText(numeral, suffix);
    HeaderLinePieces(numeral, suffix);
    LineReadExact(numeral + suffix, tail, false);
    HexNumeralRead("", numeral, "", garbage(|tail|));
    assert "" + numeral + "" == numeral;
  }

  lemma ChunkApart(c: WireChunk, tail: string)
    ensures ChunkOctets(c) + tail == c.numeral + c.suffix + CRLF + (c.data + (CRLF + tail))
  {
    var line := c.numeral + c.suffix + CRLF;
    Associative(line + c.data, CRLF, tail);
    Associative(line, c.data, CRLF + tail);
  }

  lemma ChunkReadExact(c: WireChunk, tail: string, garbage: Garbage)
    requires LegalChunk(c)
    ensures ChunkRead(In(ChunkOctets(c) + tail, true), garbage) ==
            (Chunk(|c.data|, Extension(c.suffix), c.data), In(tail, true))
  {
    ChunkApart(c, tail);
    HeaderReadExact(c.numeral, c.suffix, c.data + (CRLF + tail), garbage);
    DataReadExact(c.data, CRLF + tail);
    DataReadExact(CRLF, tail);
  }

  lemma PayloadReadStep(c: WireChunk, payload: string, rest: string, garbage: Garbage)
    requires LegalChunk(c)
    ensures PayloadRead(In(ChunkOctets(c) + rest, true), payload, garbage) ==
            PayloadRead(In(rest, true), payload + c.data, garbage)
  {
    ChunkReadExact(c, rest, garbage);
  }

  /** After the line of the last chunk, two more octets are taken, whatever they are. */
  lemma {:induction false} PayloadReadToLastLine(body: Coded, after: string, payload: string, garbage: Garbage)
    requires Legal(body) && |after| >= 2
    ensures PayloadRead(In(ChunksOctets(body.chunks) + LastLine(body) + after, true), payload, garbage) ==
            (payload + Data(body), Ieof(body), In(after[2..], true))
    decreases |body.chunks|
  {
    var octets := ChunksOctets(body.chunks) + LastLine(body) + after;
    if body.chunks == [] {
      assert octets == body.zero + body.suffix + CRLF + after;
      HeaderReadExact(body.zero, body.suffix, after, garbage);
    } else {
      var c, more := body.chunks[0], body.(chunks := body.chunks[1..]);
      var rest := ChunksOctets(more.chunks) + LastLine(more) + after;
      calc {
        PayloadRead(In(octets, true), payload, garbage);
        { FirstChunkApart(body, LastLine(body), after); }
        PayloadRead(In(ChunkOctets(c) + rest, true), payload, garbage);
        { PayloadReadStep(c, payload, rest, garbage); }
        PayloadRead(In(rest, true), payload + c.data, garbage);
        { PayloadReadToLastLine(more, after, payload + c.data, garbage); }
        (payload + c.data + Data(more), Ieof(more), In(after[2..], true));
        { Associative(payload, c.data, Data(more)); }
        (payload + Data(body), Ieof(body), In(after[2..], true));
      }
    }
  }

  lemma FirstChunkApart(body: Coded, line: string, after: string)
    requires body.chunks != []
    ensures ChunksOctets(body.chunks) + line + after ==
            ChunkOctets(body.chunks[0]) + (ChunksOctets(body.chunks[1..]) + line + after)
  {
    var first, more := ChunkOctets(body.chunks[0]), ChunksOctets(body.chunks[1..]);
    Associative(first, more, line);
    Associative(first, more + line, after);
  }

  /**
   Every chunked body decodes to the data it carries, however that data was cut
   into chunks, whatever follows on the wire; the flag is right and the stream
   is left at the first octet after the body.
   */
  lemma DecodesEveryPartition(body: Coded, payload: string, tail: string, garbage: Garbage)
    requires Legal(body)
    ensures PayloadRead(In(Encoding(body) + tail, true), payload, garbage) ==
            (payload + Data(body), Ieof(body), In(tail, true))
  {
    Associative(ChunksOctets(body.chunks) + LastLine(body), CRLF, tail);
    PayloadReadToLastLine(body, CRLF + tail, payload, garbage);
    assert (CRLF + tail)[2..] == tail;
  }

  lemma ChunkReadSuffix(s: In, garbage: Garbage)
    ensures SuffixOf(ChunkRead(s, garbage).1.rest, s.rest)
  {
    var (chunk, s1) := HeaderRead(NO_CHUNK, s, garbage);
    ReadersSuffix(s, false, 0);
    ReadersSuffix(s1, false, ToInt32(chunk.size));
    var s2 := if chunk.size > 0 then DataRead(s1, ToInt32(chunk.size)).1 else s1;
    ReadersSuffix(s2, false, 2);
    SuffixTransitive(s2.rest, s1.rest, s.rest);
    SuffixTransitive(DataRead(s2, 2).1.rest, s2.rest, s.rest);
  }

  /**
   On any stream at all the decoder terminates, keeps the old payload as a
   prefix, leaves a suffix of the stream and adds no more than it consumed.
   */
  lemma {:induction false} DecoderTotal(s: In, payload: string, garbage: Garbage)
    ensures var (extended, _, s') := PayloadRead(s, payload, garbage);
      && payload <= extended
      && SuffixOf(s'.rest, s.rest)
      && |extended| - |payload| <= |s.rest| - |s'.rest|
    decreases |s.rest|
  {
    ChunkReadShrinks(s, garbage);
    var (chunk, s1) := ChunkRead(s, garbage);
    ChunkReadSuffix(s, garbage);
    if |chunk.data| == chunk.size && chunk.size > 0 {
      DecoderTotal(s1, payload + chunk.data, garbage);
      SuffixTransitive(PayloadRead(s1, payload + chunk.data, garbage).2.rest, s1.rest, s.rest);
    }
  }

  // ----- The two decoders -----

  /** Trailer lines, each ended by CRLF. */
  function TrailerOctets(trailer: seq<string>): string {
    if trailer == [] then "" else trailer[0] + CRLF + TrailerOctets(trailer[1..])
  }

  ghost predicate LegalTrailer(trailer: seq<string>) {
    forall i :: 0 <= i < |trailer| ==> trailer[i] != "" && LineText(trailer[i])
  }

  /** The octets of a body with a trailer (section 3.6.1 of RFC 2616). */
  function EncodingWithTrailer(body: Coded, trailer: seq<string>): string {
    ChunksOctets(body.chunks) + LastLine(body) + (TrailerOctets(trailer) + CRLF)
  }

  lemma {:induction false} TrailerSkippedExact(trailer: seq<string>, tail: string)
    requires LegalTrailer(trailer)
    ensures TrailerSkipped(In(TrailerOctets(trailer) + CRLF + tail, true)) == In(tail, true)
  {
    if trailer == [] {
      LineReadExact("", tail, true);
      assert TrailerOctets(trailer) + CRLF + tail == "" + CRLF + tail;
    } else {
      var rest := TrailerOctets(trailer[1..]) + CRLF + tail;
      LineReadExact(trailer[0], rest, true);
      assert TrailerOctets(trailer) + CRLF + tail == trailer[0] + CRLF + rest;
      TrailerSkippedExact(trailer[1..], tail);
    }
  }

  lemma ChunkedReadStep(c: WireChunk, data: string, rest: string, garbage: Garbage)
    requires LegalChunk(c)
    ensures ChunkedRead(In(ChunkOctets(c) + rest, true), data, garbage) ==
            ChunkedRead(In(rest, true), data + c.data, garbage)
  {
    ChunkApart(c, rest);
    HeaderReadExact(c.numeral, c.suffix, c.data + (CRLF + rest), garbage);
    DataReadExact(c.data, CRLF + rest);
    DataReadExact(CRLF, rest);
  }

  /** `read_chunked` takes a well-formed body with any trailer, to its end. */
  lemma {:induction false} ChunkedReadExact(
    body: Coded, trailer: seq<string>, data: string, tail: string, garbage: Garbage)
    requires Legal(body) && LegalTrailer(trailer)
    ensures
      var octets := ChunksOctets(body.chunks) + LastLine(body) + (TrailerOctets(trailer) + CRLF + tail);
      ChunkedRead(In(octets, true), data, garbage) == (data + Data(body), In(tail, true))
    decreases |body.chunks|
  {
    var after := TrailerOctets(trailer) + CRLF + tail;
    var octets := ChunksOctets(body.chunks) + LastLine(body) + after;
    if body.chunks == [] {
      assert octets == body.zero + body.suffix + CRLF + after;
      HeaderReadExact(body.zero, body.suffix, after, garbage);
      TrailerSkippedExact(trailer, tail);
      assert data + Data(body) == data;
    } else {
      var c, more := body.chunks[0], body.(chunks := body.chunks[1..]);
      var rest := ChunksOctets(more.chunks) + LastLine(more) + after;
      calc {
        ChunkedRead(In(octets, true), data, garbage);
        { FirstChunkApart(body, LastLine(body), after); }
        ChunkedRead(In(ChunkOctets(c) + rest, true), data, garbage);
        { ChunkedReadStep(c, data, rest, garbage); }
        ChunkedRead(In(rest, true), data + c.data, garbage);
        { ChunkedReadExact(more, trailer, data + c.data, tail, garbage); }
        (data + c.data + Data(more), In(tail, true));
        { Associative(data, c.data, Data(more)); }
        (data + Data(body), In(tail, true));
      }
    }
  }

  /** `read_chunked_payload` does not read a trailer: it stops at the end of a body exactly if there is none. */
  lemma TrailerLeft(body: Coded, trailer: seq<string>, payload: string, tail: string, garbage: Garbage)
    requires Legal(body) && LegalTrailer(trailer)
    ensures
      var (extended, ieof, s) := PayloadRead(In(EncodingWithTrailer(body, trailer) + tail, true), payload, garbage);
      && extended == payload + Data(body) && ieof == Ieof(body)
      && s == In((TrailerOctets(trailer) + CRLF + tail)[2..], true)
      && (s == In(tail, true) <==> trailer == [])
  {
    var after := TrailerOctets(trailer) + CRLF + tail;
    Associative(ChunksOctets(body.chunks) + LastLine(body), TrailerOctets(trailer) + CRLF, tail);
    PayloadReadToLastLine(body, after, payload, garbage);
    if trailer == [] {
      assert after[2..] == tail;
    } else {
      assert |after[2..]| > |tail|;
    }
  }

  /**
   On every well-formed body both decoders return the same data, and `read_chunked` stops at its
   end; `read_chunked_payload` does so too exactly when the body has no trailer.
   */
  lemma DecodersAgree(body: Coded, trailer: seq<string>, tail: string, garbage: Garbage)
    requires Legal(body) && LegalTrailer(trailer)
    ensures
      var s := In(EncodingWithTrailer(body, trailer) + tail, true);
      var (payload, _, s1) := PayloadRead(s, "", garbage);
      var (data, s2) := ChunkedRead(s, "", garbage);
      && payload == data == Data(body)
      && s2 == In(tail, true)
      && (s1 == s2 <==> trailer == [])
  {
    TrailerLeft(body, trailer, "", tail, garbage);
    Associative(ChunksOctets(body.chunks) + LastLine(body), TrailerOctets(trailer) + CRLF, tail);
    ChunkedReadExact(body, trailer, "", tail, garbage);
  }

  // ----- The encoder -----

  /** What `send_chunked` writes after its blocks. */
  const FINAL := "\r\n0\r\n\r\n"

  /** How many blocks `send_chunked` writes for non-empty data: the quotient is rounded down. */
  function BlockCount(d: string): (n: nat)
    ensures n >= 1
    ensures |d| < 0x200_0000_0000 ==> n == if |d| < 2 * BUFFER_SIZE then 1 else |d| / BUFFER_SIZE
    ensures n > 1 ==> n * BUFFER_SIZE <= |d|
  {
    var chunks := if |d| > BUFFER_SIZE then ToInt32(|d| / BUFFER_SIZE) else 0;
    if chunks > 1 then chunks else 1
  }

  /** `substr( offset, ICAP_BUFFER_SIZE )` */
  function Block(d: string, offset: nat): string
    requires offset <= |d|
  {
    if offset + BUFFER_SIZE <= |d| then d[offset..offset + BUFFER_SIZE] else d[offset..]
  }

  function Framed(block: string): string {
    DecToHex(|block|) + CRLF + block
  }

  /** The blocks `send_chunked` cuts non-empty data into; its 32-bit offset wraps around. */
  function Blocks(d: string): (blocks: seq<string>)
    requires d != ""
    ensures |blocks| == BlockCount(d) && blocks[0] == Block(d, 0)
    ensures |blocks| > 1 ==> forall i :: 0 <= i < |blocks| ==> |blocks[i]| == BUFFER_SIZE
  {
    seq(BlockCount(d), i requires 0 <= i < BlockCount(d) => Block(d, ToWord(i * BUFFER_SIZE)))
  }

  function Frames(blocks: seq<string>): string {
    if blocks == [] then "" else Framed(blocks[0]) + Frames(blocks[1..])
  }

  lemma FramesStep(blocks: seq<string>, i: nat, before: string)
    requires i < |blocks|
    ensures before + Frames(blocks[i..]) == before + Framed(blocks[i]) + Frames(blocks[i + 1..])
  {
    assert blocks[i..][1..] == blocks[i + 1..];
    var first := Framed(blocks[i]);
    assert before + (first + Frames(blocks[i + 1..])) == before + first + Frames(blocks[i + 1..]);
  }

  lemma OffsetInRange(d: string, i: nat)
    requires i < BlockCount(d)
    ensures ToWord(i * BUFFER_SIZE) <= |d|
    ensures d != "" ==> Block(d, ToWord(i * BUFFER_SIZE)) == Blocks(d)[i]
  {
  }

  /** One full block moves the offset to the next multiple of the buffer size, modulo 2^32. */
  lemma WordStep(i: nat)
    ensures ToWord(ToWord(i * BUFFER_SIZE) + BUFFER_SIZE) == ToWord((i + 1) * BUFFER_SIZE)
  {
  }

  /** All that `send_chunked` writes. */
  function Sent(d: string): string {
    (if d == "" then "" else Frames(Blocks(d))) + FINAL
  }

  /** The size line and the data of one block. */
  method SendBlock(block: string, socket: Socket) returns (ok: bool)
    modifies socket`output
    ensures ok == socket.writable
    ensures socket.output == old(socket.output) + if ok then Framed(block) else ""
  {
    ok := socket.SendLine(DecToHex(|block|));
    if !ok {
      return false;
    }
    ok := socket.SendData(block);
    Associative(old(socket.output), DecToHex(|block|) + CRLF, block);
  }

  /** Where `send_chunked` stands before block `i`, with `frames` written. */
  ghost predicate Sending(d: string, i: nat, offset: Word, chunks: int, frames: string) {
    && d != "" && i < BlockCount(d)
    && offset == ToWord(i * BUFFER_SIZE)
    && (if BlockCount(d) > 1 then chunks == BlockCount(d) - i else chunks <= 1)
    && frames + Frames(Blocks(d)[i..]) == Frames(Blocks(d))
  }

  lemma SendingStep(d: string, i: nat, offset: Word, chunks: int, frames: string)
    requires Sending(d, i, offset, chunks, frames)
    ensures offset <= |d| && Block(d, offset) != ""
    ensures
      var block := Block(d, offset);
      if chunks - 1 <= 0 then frames + Framed(block) == Frames(Blocks(d))
      else Sending(d, i + 1, ToWord(offset + |block|), chunks - 1, frames + Framed(block))
  {
    OffsetInRange(d, i);
    FramesStep(Blocks(d), i, frames);
    WordStep(i);
    if i + 1 == |Blocks(d)| {
      assert Blocks(d)[i + 1..] == [];
      assert frames + Framed(Block(d, offset)) + Frames([]) == frames + Framed(Block(d, offset));
    }
  }

  method SendChunked(data: string, socket: Socket) returns (ok: bool)
    modifies socket`output
    ensures ok == socket.writable
    ensures socket.output == old(socket.output) + if ok then Sent(data) else ""
  {
    var offset: Word := 0;
    var chunks := 0;
    if |data| > BUFFER_SIZE {
      chunks := ToInt32(|data| / BUFFER_SIZE);
    }
    ghost var i, frames := 0, "";
    if data != "" {
      assert Blocks(data)[0..] == Blocks(data);
      assert "" + Frames(Blocks(data)) == Frames(Blocks(data));
    }
    assert data != "" ==> Sending(data, i, offset, chunks, frames);
    hide Sending, Frames, Framed, Blocks, BlockCount, ToWord;
    while true
      invariant if data == "" then offset == 0 && frames == "" else Sending(data, i, offset, chunks, frames)
      invariant frames != "" ==> socket.writable
      invariant socket.output == old(socket.output) + frames
      decreases chunks
    {
      if data != "" {
        SendingStep(data, i, offset, chunks, frames);
      }
      var block := Block(data, offset);
      if |block| <= 0 {
        break;
      }
      offset := ToWord(offset + |block|);
      ok := SendBlock(block, socket);
      if !ok {
        return false;
      }
      Associative(old(socket.output), frames, Framed(block));
      i, frames := i + 1, frames + Framed(block);
      chunks := chunks - 1;
      if chunks <= 0 {
        break;
      }
    }
    ok := socket.SendData(FINAL);
    Associative(old(socket.output), frames, FINAL);
  }

  /** A non-empty body of at most one buffer is one legal chunk on the wire. */
  function AsCoded(d: string): Coded {
    Coded([WireChunk(DecToHex(|d|), "", d)], "0", "")
  }

  lemma SingleBlock(d: string)
    requires 0 < |d| <= BUFFER_SIZE
    ensures Legal(AsCoded(d)) && Data(AsCoded(d)) == d && !Ieof(AsCoded(d))
    ensures Framed(d) + FINAL == Encoding(AsCoded(d))
  {
    PrintValue(|d|, 16);
    var c := AsCoded(d).chunks[0];
    assert LegalChunk(c);
    assert Value("0"[..0], 16) == 0;
    hide Print, Value;
    var none: seq<WireChunk> := AsCoded(d).chunks[1..];
    assert none == [];
    assert ChunksData(none) == "" && ChunksOctets(none) == "";
    assert ChunksData(AsCoded(d).chunks) == d + "" == d;
    assert ChunksOctets(AsCoded(d).chunks) == ChunkOctets(c) + "" == ChunkOctets(c);
    assert ChunkOctets(c) == Framed(d) + CRLF;
    assert LastLine(AsCoded(d)) == "0\r\n";
    assert CRLF + "0\r\n" + CRLF == FINAL;
    assert (Framed(d) + CRLF) + "0\r\n" + CRLF == Framed(d) + (CRLF + "0\r\n" + CRLF);
  }

  lemma BufferNumeral()
    ensures DecToHex(BUFFER_SIZE) == "400"
  {
    assert Print(4, 16) == "4";
    assert Print(64, 16) == "40";
  }

  /** The first block is followed by the size line of the second, with no CRLF between. */
  lemma FramesStart(blocks: seq<string>) returns (after: string)
    requires |blocks| >= 2 && |blocks[0]| == |blocks[1]| == BUFFER_SIZE
    ensures Frames(blocks) == "400\r\n" + blocks[0] + ("400\r\n" + after)
    ensures |after| >= BUFFER_SIZE
  {
    BufferNumeral();
    after := blocks[1] + Frames(blocks[2..]);
    assert blocks[1..][1..] == blocks[2..];
    assert Frames(blocks[1..]) == "400\r\n" + blocks[1] + Frames(blocks[2..]);
  }

  /**
   The encoder against the decoder, for all non-empty data: the decoder gets the
   first buffer of it, no more, with no `ieof`; and the octets written are all
   consumed exactly when one block was written.
   */
  lemma EncoderAgainstDecoder(d: string, payload: string, tail: string, garbage: Garbage)
    requires d != ""
    ensures
      var (extended, ieof, s') := PayloadRead(In(Sent(d) + tail, true), payload, garbage);
      && extended == payload + Block(d, 0)
      && !ieof
      && s'.good
      && (s'.rest == tail <==> BlockCount(d) == 1)
      && (|d| < 0x200_0000_0000 ==> (BlockCount(d) == 1 <==> |d| < 2 * BUFFER_SIZE))
      && |s'.rest| >= |tail|
  {
    var b := Block(d, 0);
    if BlockCount(d) == 1 {
      assert Blocks(d)[1..] == [];
      assert Frames(Blocks(d)) == Framed(b) + Frames([]) == Framed(b);
      SingleBlock(b);
      DecodesEveryPartition(AsCoded(b), payload, tail, garbage);
    } else {
      UnseparatedBlocks(d, payload, tail, garbage);
    }
  }

  /**
   Two blocks without a CRLF between them: the decoder takes the first two
   octets of the second size line `400` for the missing CRLF, and what is left
   of that line is a last chunk.
   */
  lemma UnseparatedBlocks(d: string, payload: string, tail: string, garbage: Garbage)
    requires BlockCount(d) > 1
    ensures
      var (extended, ieof, s') := PayloadRead(In(Sent(d) + tail, true), payload, garbage);
      extended == payload + Block(d, 0) && !ieof && s'.good && |s'.rest| > |tail|
  {
    var b := Block(d, 0);
    var more := FramesStart(Blocks(d));
    var after := more + (FINAL + tail);
    var rest := "0" + "" + CRLF + after;
    assert Sent(d) + tail == "400" + "" + CRLF + (b + ("40" + rest)) by {
      Regroup(b, more, FINAL, tail);
    }
    BufferNumeral();
    PrintValue(BUFFER_SIZE, 16);
    HeaderReadExact("400", "", b + ("40" + rest), garbage);
    DataReadExact(b, "40" + rest);
    DataReadExact("40", rest);
    assert ChunkRead(In(Sent(d) + tail, true), garbage) == (Chunk(BUFFER_SIZE, "", b), In(rest, true));
    LastChunkRead(after, payload + b, garbage);
  }

  lemma Regroup(b: string, more: string, final: string, tail: string)
    ensures "400\r\n" + b + ("400\r\n" + more) + final + tail ==
            "400" + "" + CRLF + (b + ("40" + ("0" + "" + CRLF + (more + (final + tail)))))
  {
  }

  /** A plain `0` line ends the body; two more octets are dropped. */
  lemma LastChunkRead(after: string, payload: string, garbage: Garbage)
    requires |after| >= 2
    ensures PayloadRead(In("0" + "" + CRLF + after, true), payload, garbage) == (payload, false, In(after[2..], true))
  {
    assert Value("0"[..0], 16) == 0;
    HeaderReadExact("0", "", after, garbage);
    assert payload + "" == payload;
  }

  /** For no data at all the final octets stand alone, and the decoder stops inside them. */
  lemma EmptySent(tail: string, garbage: Garbage)
    ensures PayloadRead(In(Sent("") + tail, true), "", garbage) == ("", false, In("\n\r\n" + tail, true))
  {
    var rest := "0\r" + ("\n\r\n" + tail);
    assert Sent("") + tail == "" + CRLF + rest;
    LineReadExact("", rest, false);
    FirstPiece("", ';', "", ";");
    DataReadExact("0\r", "\n\r\n" + tail);
    assert ChunkRead(In(Sent("") + tail, true), garbage) == (Chunk(0, "", ""), In("\n\r\n" + tail, true));
    assert "" + "" == "";
  }

  /** Data survives encoding and decoding exactly when there is some and it fits one buffer. */
  lemma RoundTripExactly(d: string, tail: string, garbage: Garbage)
    ensures PayloadRead(In(Sent(d) + tail, true), "", garbage) == (d, false, In(tail, true))
            <==> 0 < |d| <= BUFFER_SIZE
  {
    if d == "" {
      EmptySent(tail, garbage);
      assert |"\n\r\n" + tail| > |tail|;
    } else {
      EncoderAgainstDecoder(d, "", tail, garbage);
      assert "" + Block(d, 0) == Block(d, 0);
      assert |d| <= BUFFER_SIZE ==> Block(d, 0) == d;
    }
  }

  /** One octet more than a buffer, and that octet is lost. */
  lemma TruncationExample(garbage: Garbage)
    ensures var d := seq(BUFFER_SIZE + 1, i => 'a');
      PayloadRead(In(Sent(d), true), "", garbage) == (d[..BUFFER_SIZE], false, In("", true))
  {
    var d := seq(BUFFER_SIZE + 1, i => 'a');
    EncoderAgainstDecoder(d, "", "", garbage);
    hide PayloadRead, Sent;
    assert Sent(d) + "" == Sent(d);
    assert "" + Block(d, 0) == d[..BUFFER_SIZE];
  }
}
