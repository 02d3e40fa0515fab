/**
 Further laws of the chunked coding: what the decoders do with chunks that are not well-formed, and
 what becomes of all the blocks the encoder writes.
 */
module ChunkedLaws {
  import opened Octets
  import opened Numerals
  import opened Text
  import opened Wire
  import opened Chunked

  // ----- Extensions -----

  /** The body is marked as everything exactly by the one extension `ieof`, with white space around it. */
  lemma IeofExactly(body: Coded)
    requires LegalSuffix(body.suffix)
    ensures Ieof(body) <==>
      exists before, after :: Spaces(before) && Spaces(after) && body.suffix == ";" + before + "ieof" + after
  {
    hide Trim;
    var s := body.suffix;
    if Ieof(body) {
      var before, after := TrimApart(s[1..]);
      assert s == ";" + before + "ieof" + after;
    }
    if before, after :| Spaces(before) && Spaces(after) && s == ";" + before + "ieof" + after {
      TrimExact(before, "ieof", after);
      assert s[1..] == before + "ieof" + after;
      assert ';' !in s[1..];
    }
  }

  /** What trimming takes off is white space. */
  lemma TrimApart(s: string) returns (before: string, after: string)
    ensures Spaces(before) && Spaces(after) && s == before + Trim(s) + after
  {
    hide TrimLeft, TrimRight, Spaces;
    var right := TrimRight(s);
    before, after := right[..|right| - |TrimLeft(right)|], s[|right|..];
    assert right == before + TrimLeft(right);
    assert s == right + after;
    assert Trim(s) == TrimLeft(right);
  }

  // ----- Chunks that are not well-formed -----

  /**
   A blank line where a size should stand: `read_chunked_payload` takes it for a last chunk, while
   `read_chunked` goes on with whatever its variable held.
   */
  lemma BlankSizeLine(rest: string, payload: string, garbage: Garbage)
    requires |rest| >= 2
    ensures PayloadRead(In("\r\n" + rest, true), payload, garbage) == (payload, false, In(rest[2..], true))
    ensures SizeRead(In("\r\n" + rest, true), garbage) == (garbage(|rest|), In(rest, true))
  {
    hide PayloadRead, LineRead, Pieces, HexToDec, DataRead;
    assert "" + CRLF + rest == "\r\n" + rest;
    LineReadExact("", rest, false);
    FirstPiece("", ';', "", ";");
    HexNumeralRead("", "", "", garbage(|rest|));
    assert "" + "" + "" == "";
    DataReadExact(rest[..2], rest[2..]);
    assert rest[..2] + rest[2..] == rest;
    assert ChunkRead(In("\r\n" + rest, true), garbage) == (Chunk(0, "", ""), In(rest[2..], true));
    PayloadEnds(In("\r\n" + rest, true), payload, garbage);
    assert payload + "" == payload;
  }

  lemma PayloadEnds(s: In, payload: string, garbage: Garbage)
    ensures
      var (chunk, s1) := ChunkRead(s, garbage);
      chunk.size == 0 || |chunk.data| != chunk.size ==>
      PayloadRead(s, payload, garbage) == (payload + chunk.data, chunk.extension == "ieof", s1)
  {
    hide ChunkRead;
  }

  /** The line of any chunk whose size fits an `unsigned int`. */
  lemma SizeLineRead(numeral: string, rest: string, garbage: Garbage)
    requires IsNumeral(numeral, 16) && Value(numeral, 16) < 0x1_0000_0000
    ensures HeaderRead(NO_CHUNK, In(numeral + CRLF + rest, true), garbage) ==
            (Chunk(Value(numeral, 16), "", ""), In(rest, true))
  {
    hide Value, LineRead, Pieces, HexToDec, IsDigit;
    HeaderLineText(numeral, "");
    assert numeral + "" == numeral;
    LineReadExact(numeral, rest, false);
    NumeralText(numeral, 16);
    FirstPiece(numeral, ';', "", ";");
    HexNumeralRead("", numeral, "", garbage(|rest|));
    assert "" + numeral + "" == numeral;
  }

  /** A size of 2^31 or more is negative as an `int`: no data is read for it, and the body ends. */
  lemma HugeChunk(numeral: string, rest: string, payload: string, garbage: Garbage)
    requires IsNumeral(numeral, 16) && 0x8000_0000 <= Value(numeral, 16) < 0x1_0000_0000
    requires |rest| >= 2
    ensures PayloadRead(In(numeral + "\r\n" + rest, true), payload, garbage) == (payload, false, In(rest[2..], true))
  {
    hide Value, PayloadRead, HeaderRead, IsDigit;
    var s := In(numeral + "\r\n" + rest, true);
    SizeLineRead(numeral, rest, garbage);
    assert ToInt32(Value(numeral, 16)) < 0;
    DataReadExact(rest[..2], rest[2..]);
    assert rest[..2] + rest[2..] == rest;
    assert ChunkRead(s, garbage) == (Chunk(Value(numeral, 16), "", ""), In(rest[2..], true));
    PayloadEnds(s, payload, garbage);
    assert payload + "" == payload;
  }

  /**
   A stream that ends inside a chunk: both decoders keep the whole buffers of 1024 octets that
   arrived of it, and stop on the failed stream.
   */
  lemma TruncatedChunk(numeral: string, part: string, payload: string, garbage: Garbage)
    requires IsNumeral(numeral, 16) && |part| < Value(numeral, 16) < 0x8000_0000
    ensures
      var kept := part[..|part| / 1024 * 1024];
      && PayloadRead(In(numeral + "\r\n" + part, true), payload, garbage) == (payload + kept, false, In("", false))
      && ChunkedRead(In(numeral + "\r\n" + part, true), payload, garbage) == (payload + kept, In("", false))
  {
    hide Value, PayloadRead, HeaderRead, SizeRead, IsDigit, TrailerSkipped, DataRead, LineRead;
    var s := In(numeral + "\r\n" + part, true);
    SizeLineRead(numeral, part, garbage);
    HeaderReadExact(numeral, "", part, garbage);
    assert numeral + "" + CRLF + part == numeral + "\r\n" + part;
    DataReadShort(part, Value(numeral, 16), In("", false));
    DataReadShort("", 2, In("", false));
    var data := DataRead(In(part, true), Value(numeral, 16)).0;
    assert |data| == |part| / 1024 * 1024 && data == part[..|data|];
    assert |data| != Value(numeral, 16);
    assert ChunkRead(s, garbage) == (Chunk(Value(numeral, 16), "", data), In("", false));
    TrailerOfNothing();
    PayloadEnds(s, payload, garbage);
  }

  lemma TrailerOfNothing()
    ensures TrailerSkipped(In("", false)) == In("", false)
  {
    LineReadCut("", ' ', "", true);
  }

  /** Letters in a size may stand in either case. */
  lemma UpperCaseChunk(garbage: Garbage)
    ensures PayloadRead(In("A\r\n0123456789\r\n0\r\n\r\n", true), "", garbage) == ("0123456789", false, In("", true))
  {
    var body := Coded([WireChunk("A", "", "0123456789")], "0", "");
    assert Value("A"[..0], 16) == Value("0"[..0], 16) == 0;
    assert LegalChunk(body.chunks[0]);
    assert body.chunks[1..] == [];
    var octets := ChunkOctets(body.chunks[0]);
    assert octets == "A" + "" + CRLF + "0123456789" + CRLF == "A\r\n0123456789\r\n";
    assert LastLine(body) == "0" + "" + CRLF == "0\r\n";
    assert Encoding(body) == octets + "" + "0\r\n" + "\r\n" == "A\r\n0123456789\r\n0\r\n\r\n";
    assert Encoding(body) + "" == Encoding(body);
    hide Encoding;
    DecodesEveryPartition(body, "", "", garbage);
    assert "" + Data(body) == "0123456789" + "" == "0123456789";
  }

  // ----- All the blocks of the encoder -----

  /** Each block holds what stands at its offset, which is counted in 32 bits. */
  lemma BlockContents(d: string, i: nat)
    requires d != "" && i < |Blocks(d)|
    ensures
      var at := (i * 1024) % 0x1_0000_0000;
      at < |d| && Blocks(d)[i] == if at + 1024 <= |d| then d[at..at + 1024] else d[at..]
  {
    assert ToWord(i * BUFFER_SIZE) == (i * 1024) % 0x1_0000_0000;
  }

  function Joined(blocks: seq<string>): string {
    if blocks == [] then "" else Joined(blocks[..|blocks| - 1]) + blocks[|blocks| - 1]
  }

  lemma {:induction false} JoinedBlocks(d: string, n: nat)
    requires d != "" && |d| < 0x1_0000_0000 && n <= |Blocks(d)|
    ensures Joined(Blocks(d)[..n]) == d[..if n * 1024 <= |d| then n * 1024 else |d|]
  {
    hide Blocks;
    if n > 0 {
      JoinedBlocks(d, n - 1);
      BlockContents(d, n - 1);
      assert Blocks(d)[..n][..n - 1] == Blocks(d)[..n - 1];
    }
  }

  /**
   For data below 2^32 octets, what is written is its whole blocks in order, each behind its size
   line, and the final octets; less than one block is one block.  What is left over is not written.
   */
  lemma SentInBlocks(d: string)
    requires d != "" && |d| < 0x1_0000_0000
    ensures
      var n := if |d| < 2048 then 1 else |d| / 1024;
      && |Blocks(d)| == n
      && Sent(d) == Frames(Blocks(d)) + "\r\n0\r\n\r\n"
      && Joined(Blocks(d)) == d[..if n * 1024 <= |d| then n * 1024 else |d|]
  {
    JoinedBlocks(d, |Blocks(d)|);
    assert Blocks(d)[..|Blocks(d)|] == Blocks(d);
  }

  /** Each block stands behind a line with its length in lower-case base 16. */
  lemma {:induction false} FramesRead(blocks: seq<string>, i: nat, garbage: Word)
    requires i < |blocks| && |blocks[i]| < 0x1_0000_0000
    ensures exists numeral ::
      && HexToDec(numeral, garbage) == |blocks[i]|
      && (forall k :: 0 <= k < |numeral| ==> numeral[k] in "0123456789abcdef")
      && Frames(blocks[i..]) == numeral + "\r\n" + blocks[i] + Frames(blocks[i + 1..])
  {
    hide Print, HexToDec, Value, IsNumeral;
    var numeral := DecToHex(|blocks[i]|);
    HexRoundTrip(|blocks[i]|, garbage);
    PrintShape(|blocks[i]|, 16);
    assert blocks[i..][1..] == blocks[i + 1..];
  }
}
