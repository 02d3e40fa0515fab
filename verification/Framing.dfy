/**
 `read_req_header`: collecting the header block of a request from the stream,
 one fixed-size buffer at a time.
 */
module Framing {
  import opened Octets
  import opened Wire

  /** The loop of `read_req_header`: pieces of more than two octets are collected. */
  function BlockRead(s: In, data: string): (string, In)
    decreases |s.rest|
  {
    var (line, s1) := BufferedLineRead(s, BUFFER_SIZE, true);
    if |line| > 2 then
      BufferedShrinks(s);
      BlockRead(s1, data + line)
    else (data, s1)
  }

  lemma BufferedShrinks(s: In)
    ensures var (line, s') := BufferedLineRead(s, BUFFER_SIZE, true); |line| + |s'.rest| <= |s.rest|
  {
    ReadersShrink(s, true, 0);
  }

  method ReadBlock(socket: Socket) returns (data: string)
    modifies socket`unread, socket`good
    ensures (data, socket.Incoming()) == BlockRead(old(socket.Incoming()), "")
  {
    var buffer := new char[BUFFER_SIZE];
    data := "";
    while true
      invariant BlockRead(socket.Incoming(), data) == BlockRead(old(socket.Incoming()), "")
      decreases |socket.unread|
    {
      BufferedShrinks(socket.Incoming());
      var n := socket.ReadLineInto(buffer, BUFFER_SIZE, true);
      if n <= 2 {
        break;
      }
      data := data + buffer[..n];
    }
  }

  // ----- When the block is collected exactly -----

  /** Lines, each ended by CRLF. */
  function Lines(lines: seq<string>): string {
    if lines == [] then "" else lines[0] + CRLF + Lines(lines[1..])
  }

  ghost predicate LegalLines(lines: seq<string>) {
    forall i :: 0 <= i < |lines| ==> lines[i] != "" && LineText(lines[i])
  }

  /** How many octets a buffer takes at a time. */
  const TAKE := BUFFER_SIZE - 1

  /**
   What is left of a line of `length` octets, CRLF included, after taking whole
   buffers of it: 0 when the end is recognised, 1 when the LF is left over for
   the next piece, 2 when the CRLF is left over and passes for a blank line.
   */
  function Leftover(length: nat): (n: nat)
    ensures n <= 2
  {
    if length <= TAKE then 0
    else if length - TAKE <= 2 then length - TAKE
    else Leftover(length - TAKE)
  }

  /** No line leaves a CRLF, and the last one leaves no LF. */
  predicate Recognised(lines: seq<string>, carry: nat) {
    if lines == [] then carry == 0
    else
      var n := Leftover(carry + |lines[0]| + |CRLF|);
      n != 2 && Recognised(lines[1..], n)
  }

  lemma PieceRead(text: string, rest: string, data: string)
    requires text != "" && LineText(text) && |text| + 2 <= TAKE
    ensures BlockRead(In(text + CRLF + rest, true), data) == BlockRead(In(rest, true), data + (text + CRLF))
  {
    BufferedAgrees(text, rest, BUFFER_SIZE, true);
    hide LineRead, BufferedLineRead;
    assert |text + CRLF| > 2;
  }

  /** A line longer than the buffer: one buffer of it is taken. */
  lemma BufferTaken(text: string, rest: string, data: string)
    requires LineText(text) && |text| + 2 > TAKE
    ensures var t := text + CRLF + rest;
      BlockRead(In(t, true), data) == BlockRead(In(t[TAKE..], true), data + t[..TAKE])
  {
    LineEndExact(text, rest);
    hide LineRead, LineEnd;
  }

  lemma BlankLineRead(rest: string, data: string)
    ensures BlockRead(In(CRLF + rest, true), data) == (data, In(rest, true))
  {
    BufferedAgrees("", rest, BUFFER_SIZE, true);
    assert "" + CRLF + rest == CRLF + rest;
    assert "" + CRLF == CRLF;
    hide LineRead, BufferedLineRead;
  }

  lemma LineTextSuffix(text: string, k: nat)
    requires LineText(text) && k <= |text|
    ensures LineText(text[k..])
  {
    forall i | 0 <= i < |text[k..]|
      ensures Positive(text[k..][i]) && !EndsCrlf(text[k..], i)
    {
      assert !EndsCrlf(text, k + i);
    }
  }

  /** One line of any length, by what it leaves. */
  lemma {:induction false} LongLineRead(text: string, rest: string, data: string)
    requires text != "" && LineText(text)
    ensures BlockRead(In(text + CRLF + rest, true), data) ==
      match Leftover(|text| + 2)
      case 0 => BlockRead(In(rest, true), data + (text + CRLF))
      case 1 => BlockRead(In("\n" + rest, true), data + (text + "\r"))
      case _ => (data + text, In(rest, true))
    decreases |text|
  {
    var t := text + CRLF + rest;
    if |text| + 2 <= TAKE {
      PieceRead(text, rest, data);
    } else {
      BufferTaken(text, rest, data);
      TakenApart(text, rest);
      hide BlockRead;
      if |text| == TAKE {
        BlankLineRead(rest, data + text);
      } else if |text| > TAKE {
        var more := text[TAKE..];
        LineTextSuffix(text, TAKE);
        LongLineRead(more, rest, data + text[..TAKE]);
        assert Leftover(|text| + 2) == Leftover(|more| + 2);
        Regrouped(data, text, TAKE);
      }
    }
  }

  lemma TakenApart(text: string, rest: string)
    requires |text| + 2 > TAKE
    ensures var t := text + CRLF + rest;
      (t[..TAKE], t[TAKE..]) ==
        if |text| < TAKE then (text + "\r", "\n" + rest)
        else if |text| == TAKE then (text, CRLF + rest)
        else (text[..TAKE], text[TAKE..] + CRLF + rest)
  {
    var t := text + CRLF + rest;
    if |text| < TAKE {
      assert t[..TAKE] == text + "\r" && t[TAKE..] == "\n" + rest;
    } else if |text| == TAKE {
      assert t[..TAKE] == text && t[TAKE..] == CRLF + rest;
    } else {
      assert t[..TAKE] == text[..TAKE] && t[TAKE..] == text[TAKE..] + CRLF + rest;
    }
  }

  lemma Regrouped(data: string, text: string, k: nat)
    requires k <= |text|
    ensures data + text[..k] + text[k..] == data + text
    ensures data + text[..k] + (text[k..] + CRLF) == data + (text + CRLF)
    ensures data + text[..k] + (text[k..] + "\r") == data + (text + "\r")
  {
  }

  function CarryText(carry: nat): string {
    if carry == 1 then "\n" else ""
  }

  /**
   The block with an LF possibly left over in front.  Either it is collected
   exactly, or the data collected does not even have the right length.
   */
  lemma {:induction false} LinesRead(lines: seq<string>, carry: nat, tail: string, data: string)
    requires LegalLines(lines) && carry <= 1
    ensures
      var result := BlockRead(In(CarryText(carry) + Lines(lines) + (CRLF + tail), true), data);
      if Recognised(lines, carry) then result == (data + (CarryText(carry) + Lines(lines)), In(tail, true))
      else |result.0| != |data| + carry + |Lines(lines)|
    decreases |lines|
  {
    var c := CarryText(carry);
    if lines == [] {
      if carry == 0 {
        BlankLineRead(tail, data);
        assert c + Lines(lines) + (CRLF + tail) == CRLF + tail;
        assert data + (c + Lines(lines)) == data;
      } else {
        assert c + Lines(lines) + (CRLF + tail) == c + CRLF + tail;
        PieceRead("\n", tail, data);
        BlockGrows(In(tail, true), data + ("\n" + CRLF));
      }
    } else {
      FirstLineRead(lines, carry, tail, data);
    }
  }

  lemma {:induction false} BlockGrows(s: In, data: string)
    ensures |BlockRead(s, data).0| >= |data|
    decreases |s.rest|
  {
    var (line, s1) := BufferedLineRead(s, BUFFER_SIZE, true);
    BufferedShrinks(s);
    hide BufferedLineRead;
    if |line| > 2 {
      BlockGrows(s1, data + line);
    }
  }

  lemma {:induction false} FirstLineRead(lines: seq<string>, carry: nat, tail: string, data: string)
    requires LegalLines(lines) && carry <= 1 && lines != []
    ensures
      var result := BlockRead(In(CarryText(carry) + Lines(lines) + (CRLF + tail), true), data);
      if Recognised(lines, carry) then result == (data + (CarryText(carry) + Lines(lines)), In(tail, true))
      else |result.0| != |data| + carry + |Lines(lines)|
    decreases |lines|, 0
  {
    hide BlockRead;
    var c, more := CarryText(carry), Lines(lines[1..]);
    var text, rest := c + lines[0], more + (CRLF + tail);
    CarriedLineText(carry, lines[0]);
    Rejoined(data, c, lines[0], more, CRLF + tail);
    assert Lines(lines) == lines[0] + CRLF + more;
    LongLineRead(text, rest, data);
    hide Lines;
    var n := Leftover(|text| + 2);
    if n == 0 {
      LinesRead(lines[1..], 0, tail, data + (text + CRLF));
    } else if n == 1 {
      LinesRead(lines[1..], 1, tail, data + (text + "\r"));
    }
  }

  lemma CarriedLineText(carry: nat, line: string)
    requires LineText(line)
    ensures LineText(CarryText(carry) + line)
  {
    var text := CarryText(carry) + line;
    if carry == 1 {
      forall k | 0 <= k < |text|
        ensures Positive(text[k]) && !EndsCrlf(text, k)
      {
        assert k > 0 ==> Positive(line[k - 1]) && !EndsCrlf(line, k - 1);
      }
    } else {
      assert text == line;
    }
  }

  lemma Rejoined(data: string, c: string, line: string, more: string, end: string)
    ensures c + (line + CRLF + more) + end == (c + line) + CRLF + (more + end)
    ensures more + end == "" + more + end
    ensures "\n" + (more + end) == "\n" + more + end
    ensures data + ((c + line) + CRLF) + ("" + more) == data + (c + (line + CRLF + more))
    ensures data + ((c + line) + "\r") + ("\n" + more) == data + (c + (line + CRLF + more))
  {
    assert data + ((c + line) + "\r") + ("\n" + more) == data + (c + line) + (("\r" + "\n") + more);
  }

  /**
   The header block is collected exactly, and the stream left at the first
   octet of the payload, if and only if every line end is recognised.
   */
  lemma HeaderFraming(lines: seq<string>, tail: string)
    requires LegalLines(lines)
    ensures BlockRead(In(Lines(lines) + (CRLF + tail), true), "") == (Lines(lines), In(tail, true))
            <==> Recognised(lines, 0)
  {
    LinesRead(lines, 0, tail, "");
    assert CarryText(0) + Lines(lines) == Lines(lines);
    assert "" + Lines(lines) == Lines(lines);
  }

  /** Lines that fit the buffer are always recognised. */
  lemma {:induction false} ShortLinesRecognised(lines: seq<string>)
    requires forall i :: 0 <= i < |lines| ==> |lines[i]| + |CRLF| <= TAKE
    ensures Recognised(lines, 0)
  {
    if lines != [] {
      ShortLinesRecognised(lines[1..]);
    }
  }

  /** A line of 1024 octets before the blank line, or one of 1025, is not. */
  lemma UnrecognisedLine(line: string)
    requires |line| + |CRLF| == BUFFER_SIZE || |line| + |CRLF| == BUFFER_SIZE + 1
    ensures !Recognised([line], 0)
  {
    assert [line][1..] == [];
  }
}
