/**
 The header of an ICAP request: parsing the collected block (`read_header`), and
 printing header lines (`send_headers`).
 */
module RequestHeaders {
  import opened Octets
  import opened Text
  import opened Wire
  import opened Encapsulated
  import opened EncapsulatedLaws
  import opened Framing

  // ----- What the parser computes -----

  datatype RequestLine = RequestLine(verb: string, uri: string, protocol: string)

  datatype Parsed = Parsed(line: RequestLine, fields: Fields)

  const UNKNOWN := RequestLine("", "", "ICAP/1.0")
  const NO_FIELDS := Fields(map[], FRESH)

  /** The request line, if it has exactly three words. */
  function LineParsed(before: RequestLine, text: string): RequestLine {
    var words := Pieces(Trim(text), " ");
    if |words| == 3 then RequestLine(words[0], words[1], words[2]) else before
  }

  /** A header line is attached if it has exactly one colon, and dropped otherwise. */
  function LineAttached(f: Fields, line: string): Fields {
    var parts := Pieces(line, ":");
    if |parts| == 2 then Attached(f, Trim(parts[0]), Trim(parts[1])) else f
  }

  function LinesAttached(f: Fields, lines: seq<string>): Fields {
    if lines == [] then f
    else LineAttached(LinesAttached(f, lines[..|lines| - 1]), lines[|lines| - 1])
  }

  /** `read_header`: the block is cut at every CR and at every LF. */
  function BlockParsed(before: Parsed, raw: string): Parsed {
    var data := Pieces(raw, "\r\n");
    Parsed(LineParsed(before.line, data[0]), LinesAttached(before.fields, data[1..]))
  }

  /** The header of a request with the given block. */
  function HeaderParsed(raw: string): Parsed {
    BlockParsed(Parsed(UNKNOWN, NO_FIELDS), raw)
  }

  class RequestHeader {
    const header: Header
    var rawData: string
    var request: RequestLine

    constructor (raw: string)
      ensures fresh(header)
      ensures rawData == raw
      ensures Parsed(request, header.State()) == HeaderParsed(raw)
    {
      rawData, request := "", UNKNOWN;
      header := new Header();
      new;
      ReadHeader(raw);
    }

    /** `read_header` */
    method ReadHeader(raw: string)
      modifies this, header
      ensures rawData == raw
      ensures Parsed(request, header.State()) == BlockParsed(old(Parsed(request, header.State())), raw)
    {
      hide Trim, Pieces, Attached;
      rawData := raw;
      var data := Split(raw, "\r\n");
      var words := Split(Trim(data[0]), " ");
      if |words| == 3 {
        request := RequestLine(words[0], words[1], words[2]);
      }
      var i := 1;
      while i < |data|
        invariant 1 <= i <= |data|
        invariant header.State() == LinesAttached(old(header.State()), data[1..i])
        invariant request == LineParsed(old(request), data[0]) && rawData == raw
      {
        assert data[1..i + 1][..i - 1] == data[1..i];
        var parts := Split(data[i], ":");
        if |parts| == 2 {
          header.Attach(parts[0], parts[1]);
        }
        i := i + 1;
      }
      assert data[1..|data|] == data[1..];
    }
  }

  /** `read_req_header` */
  method ReadReqHeader(socket: Socket) returns (header: RequestHeader)
    modifies socket`unread, socket`good
    ensures fresh(header) && fresh(header.header)
    ensures header.rawData == BlockRead(old(socket.Incoming()), "").0
    ensures socket.Incoming() == BlockRead(old(socket.Incoming()), "").1
    ensures Parsed(header.request, header.header.State()) == HeaderParsed(header.rawData)
  {
    hide BlockRead;
    var data := ReadBlock(socket);
    header := new RequestHeader(data);
  }

  // ----- Cutting at CR and LF is cutting into lines -----

  lemma {:induction false} LinesPieces(lines: seq<string>)
    requires forall i :: 0 <= i < |lines| ==> Free(lines[i], "\r\n")
    ensures Pieces(Lines(lines), "\r\n") == Interleaved(lines) + [""]
  {
    hide Pieces;
    if lines == [] {
      FirstPiece("", '\r', "", "\r\n");
    } else {
      var more := Lines(lines[1..]);
      LinesPieces(lines[1..]);
      CrlfApart(lines[0], more);
      FirstPiece(lines[0], '\r', "" + ['\n'] + more, "\r\n");
      FirstPiece("", '\n', more, "\r\n");
      assert Interleaved(lines) + [""] == [lines[0]] + ([""] + (Interleaved(lines[1..]) + [""]));
    }
  }

  lemma CrlfApart(line: string, more: string)
    ensures line + CRLF + more == line + ['\r'] + ("" + ['\n'] + more)
  {
    assert CRLF + more == ['\r'] + ("" + ['\n'] + more);
    Associative(line, CRLF, more);
    Associative(line, ['\r'], "" + ['\n'] + more);
  }

  /** Each line followed by an empty piece. */
  function Interleaved(lines: seq<string>): seq<string> {
    if lines == [] then [] else [lines[0], ""] + Interleaved(lines[1..])
  }

  lemma EmptyLineIgnored(f: Fields)
    ensures LineAttached(f, "") == f
  {
    FirstPiece("", ':', "", ":");
  }

  lemma {:induction false} AttachedAppend(f: Fields, lines: seq<string>, more: seq<string>)
    ensures LinesAttached(f, lines + more) == LinesAttached(LinesAttached(f, lines), more)
    decreases |more|
  {
    hide LineAttached;
    if more == [] {
      assert lines + more == lines;
    } else {
      var n := |more| - 1;
      AttachedAppend(f, lines, more[..n]);
      assert (lines + more)[..|lines| + n] == lines + more[..n];
    }
  }

  lemma {:induction false} InterleavedAttached(f: Fields, lines: seq<string>)
    ensures LinesAttached(f, Interleaved(lines) + [""]) == LinesAttached(f, lines)
    decreases |lines|
  {
    hide LineAttached;
    if lines == [] {
      assert Interleaved(lines) + [""] == [""];
      assert [""][..0] == [];
      EmptyLineIgnored(f);
    } else {
      var g := LineAttached(f, lines[0]);
      var rest := Interleaved(lines[1..]) + [""];
      assert lines == [lines[0]] + lines[1..];
      InterleavedFirst(lines[0], lines[1..]);
      hide Interleaved, LinesAttached;
      calc {
        LinesAttached(f, [lines[0]] + ([""] + rest));
        { OneAttached(f, lines[0], [""] + rest); }
        LinesAttached(g, [""] + rest);
        { OneAttached(g, "", rest); EmptyLineIgnored(g); }
        LinesAttached(g, rest);
        { InterleavedAttached(g, lines[1..]); }
        LinesAttached(g, lines[1..]);
        { OneAttached(f, lines[0], lines[1..]); }
        LinesAttached(f, lines);
      }
    }
  }

  lemma InterleavedFirst(first: string, lines: seq<string>)
    ensures Interleaved([first] + lines) + [""] == [first] + ([""] + (Interleaved(lines) + [""]))
  {
    assert ([first] + lines)[1..] == lines;
  }

  lemma OneAttached(f: Fields, line: string, more: seq<string>)
    ensures LinesAttached(f, [line] + more) == LinesAttached(LineAttached(f, line), more)
  {
    hide LineAttached;
    AttachedAppend(f, [line], more);
    assert [line][..0] == [];
    assert LinesAttached(f, []) == f;
  }

  /**
   For every block of lines without stray CR or LF, the parser sees the request
   line and the header lines, as if it had cut at the CRLF pairs.
   */
  lemma LinesParsed(first: string, lines: seq<string>)
    requires Free(first, "\r\n") && forall i :: 0 <= i < |lines| ==> Free(lines[i], "\r\n")
    ensures HeaderParsed(Lines([first] + lines)) == Parsed(LineParsed(UNKNOWN, first), LinesAttached(NO_FIELDS, lines))
  {
    hide LineParsed, LineAttached, LinesAttached, Lines, Pieces;
    LinesPieces([first] + lines);
    InterleavedFirst(first, lines);
    hide Interleaved;
    var data := Pieces(Lines([first] + lines), "\r\n");
    assert data[0] == first && data[1..] == [""] + (Interleaved(lines) + [""]);
    OneAttached(NO_FIELDS, "", Interleaved(lines) + [""]);
    EmptyLineIgnored(NO_FIELDS);
    InterleavedAttached(NO_FIELDS, lines);
  }

  // ----- Printing -----

  datatype Field = Field(key: string, value: string)

  function FieldLine(f: Field): string {
    f.key + ": " + f.value
  }

  function FieldLines(fields: seq<Field>): (lines: seq<string>)
    ensures |lines| == |fields|
    ensures forall i :: 0 <= i < |fields| ==> lines[i] == FieldLine(fields[i])
  {
    seq(|fields|, i requires 0 <= i < |fields| => FieldLine(fields[i]))
  }

  /** `fields` lists the entries of the map, as iterating over it does. */
  ghost predicate Lists(fields: seq<Field>, headers: map<string, string>) {
    && (forall i, j :: 0 <= i < j < |fields| ==> fields[i].key != fields[j].key)
    && (forall i :: 0 <= i < |fields| ==> fields[i].key in headers && headers[fields[i].key] == fields[i].value)
    && (forall key :: key in headers ==> exists i :: 0 <= i < |fields| && fields[i].key == key)
  }

  /** The Encapsulated header as a field. */
  function EncapsulatedField(order: seq<Entity>, m: Offsets): Field {
    Field("Encapsulated", EncapsulatedText(order, m))
  }

  /** A printed header: the fields, the Encapsulated header, and the blank line. */
  function HeaderOctets(fields: seq<Field>, encapsulated: string): string {
    Lines(FieldLines(fields + [Field("Encapsulated", encapsulated)])) + CRLF
  }

  /** `send_headers` */
  method SendHeaders(fields: seq<Field>, header: Header, socket: Socket) returns (ok: bool, ghost order: seq<Entity>)
    requires Lists(fields, header.headers)
    modifies socket`output
    ensures ok == socket.writable && Sorts(order, header.encapsulated)
    ensures socket.output ==
            old(socket.output) + if ok then HeaderOctets(fields, EncapsulatedText(order, header.encapsulated)) else ""
  {
    hide EncapsulatedText, Lists, HeaderOctets;
    var text;
    text, order := header.EncapsulatedStr();
    ok := SendHeaderLines(fields, text, socket);
  }

  /** The writing part of `send_headers`. */
  method SendHeaderLines(fields: seq<Field>, text: string, socket: Socket) returns (ok: bool)
    modifies socket`output
    ensures ok == socket.writable
    ensures socket.output == old(socket.output) + if ok then HeaderOctets(fields, text) else ""
  {
    assert Lines([]) == "" && FieldLines([]) == [];
    hide Lines;
    ok := SendFields(fields, socket);
    if !ok {
      return;
    }
    ok := socket.SendLine("Encapsulated: " + text);
    if !ok {
      return;
    }
    ghost var lines, last := FieldLines(fields), "Encapsulated: " + text;
    assert FieldLine(Field("Encapsulated", text)) == last by {
      assert "Encapsulated" + ": " == "Encapsulated: ";
    }
    assert FieldLines(fields + [Field("Encapsulated", text)]) == lines + [last];
    LinesAppend(lines, last);
    Associative(old(socket.output), Lines(lines), last + CRLF);
    ok := socket.SendData(CRLF);
    Associative(old(socket.output), Lines(lines + [last]), CRLF);
  }

  /** The loop of `send_headers`. */
  method SendFields(fields: seq<Field>, socket: Socket) returns (ok: bool)
    modifies socket`output
    ensures fields != [] ==> ok == socket.writable
    ensures fields == [] ==> ok
    ensures socket.output == old(socket.output) + if ok then Lines(FieldLines(fields)) else ""
  {
    ghost var lines := FieldLines(fields);
    var i := 0;
    assert lines[..0] == [] && Lines([]) == "";
    hide Lines, FieldLines, FieldLine;
    ok := true;
    while i < |fields|
      invariant 0 <= i <= |fields| && ok
      invariant i > 0 ==> socket.writable
      invariant socket.output == old(socket.output) + Lines(lines[..i])
    {
      ok := socket.SendLine(FieldLine(fields[i]));
      if !ok {
        return;
      }
      LineSent(old(socket.output), lines, i);
      i := i + 1;
    }
    assert lines[..|fields|] == lines;
  }

  lemma LineSent(before: string, lines: seq<string>, i: nat)
    requires i < |lines|
    ensures before + Lines(lines[..i]) + (lines[i] + CRLF) == before + Lines(lines[..i + 1])
  {
    hide Lines;
    LinesAppend(lines[..i], lines[i]);
    assert lines[..i + 1] == lines[..i] + [lines[i]];
    Associative(before, Lines(lines[..i]), lines[i] + CRLF);
  }

  lemma {:induction false} LinesAppend(lines: seq<string>, line: string)
    ensures Lines(lines + [line]) == Lines(lines) + (line + CRLF)
  {
    if lines == [] {
      assert lines + [line] == [line];
      assert [line][1..] == [];
      assert Lines([line]) == line + CRLF + "";
    } else {
      assert (lines + [line])[1..] == lines[1..] + [line];
      LinesAppend(lines[1..], line);
      Associative(lines[0] + CRLF, Lines(lines[1..]), line + CRLF);
    }
  }

  // ----- Parsing undoes printing -----

  /** A word of the request line. */
  ghost predicate IsWord(w: string) {
    w != "" && forall i :: 0 <= i < |w| ==> Positive(w[i]) && !IsSpace(w[i])
  }

  ghost predicate LegalRequestLine(r: RequestLine) {
    IsWord(r.verb) && IsWord(r.uri) && IsWord(r.protocol)
  }

  function RequestText(r: RequestLine): string {
    r.verb + " " + r.uri + " " + r.protocol
  }

  lemma ThreeWords(a: string, b: string, c: string)
    requires Free(a, " ") && Free(b, " ") && Free(c, " ")
    ensures Pieces(a + " " + b + " " + c, " ") == [a, b, c]
  {
    hide Pieces;
    var rest := b + [' '] + c;
    assert a + " " + b + " " + c == a + [' '] + rest;
    FirstPiece(a, ' ', rest, " ");
    FirstPiece(b, ' ', c, " ");
    FirstPiece(c, ' ', "", " ");
  }

  lemma RequestTextShape(r: RequestLine)
    requires LegalRequestLine(r)
    ensures Trimmed(RequestText(r)) && Free(RequestText(r), "\r\n")
  {
    var text := RequestText(r);
    assert text[0] == r.verb[0] && text[|text| - 1] == r.protocol[|r.protocol| - 1];
  }

  lemma RequestLineRecovered(r: RequestLine)
    requires LegalRequestLine(r)
    ensures LineParsed(UNKNOWN, RequestText(r)) == r
    ensures Free(RequestText(r), "\r\n")
  {
    RequestTextShape(r);
    TrimNothing(RequestText(r));
    hide Trim, Pieces;
    ThreeWords(r.verb, r.uri, r.protocol);
  }

  /** Key and value are trimmed, stay on the line, and the key holds no colon. */
  ghost predicate LegalField(f: Field) {
    && f.key != "" && Trimmed(f.key) && Free(f.key, ":\r\n")
    && Trimmed(f.value) && Free(f.value, "\r\n")
  }

  ghost predicate LegalFields(fields: seq<Field>) {
    forall i :: 0 <= i < |fields| ==> LegalField(fields[i])
  }

  /** A field whose value holds a colon is lost. */
  predicate Kept(f: Field) {
    ':' !in f.value
  }

  function FieldsAttached(base: Fields, fields: seq<Field>): Fields {
    if fields == [] then base
    else
      var f, rest := fields[|fields| - 1], FieldsAttached(base, fields[..|fields| - 1]);
      if Kept(f) then Attached(rest, f.key, f.value) else rest
  }

  lemma FieldFree(f: Field)
    requires LegalField(f)
    ensures Free(FieldLine(f), "\r\n")
  {
  }

  lemma FieldPieces(f: Field)
    requires LegalField(f)
    ensures var parts := Pieces(FieldLine(f), ":");
      if Kept(f) then parts == [f.key, " " + f.value] else |parts| > 2
  {
    var rest := " " + f.value;
    assert FieldLine(f) == f.key + [':'] + rest;
    FirstPiece(f.key, ':', rest, ":");
    hide FieldLine, Pieces;
    if Kept(f) {
      FirstPiece(rest, ':', "", ":");
    } else {
      var i :| 0 <= i < |f.value| && f.value[i] == ':';
      assert rest[i + 1] == ':';
      ManyPieces(rest, ':');
    }
  }

  lemma FieldRecovered(base: Fields, f: Field)
    requires LegalField(f)
    ensures LineAttached(base, FieldLine(f)) == if Kept(f) then Attached(base, f.key, f.value) else base
  {
    hide Attached, FieldLine, Pieces, Trim;
    FieldPieces(f);
    TrimNothing(f.key);
    TrimExact(" ", f.value, "");
    assert " " + f.value + "" == " " + f.value;
  }

  lemma {:induction false} FieldsRecovered(base: Fields, fields: seq<Field>)
    requires LegalFields(fields)
    ensures LinesAttached(base, FieldLines(fields)) == FieldsAttached(base, fields)
    ensures forall i :: 0 <= i < |fields| ==> Free(FieldLines(fields)[i], "\r\n")
  {
    if fields != [] {
      var n := |fields| - 1;
      FieldsRecovered(base, fields[..n]);
      assert FieldLines(fields)[..n] == FieldLines(fields[..n]);
      FieldRecovered(FieldsAttached(base, fields[..n]), fields[n]);
      forall i | 0 <= i < |fields|
        ensures Free(FieldLines(fields)[i], "\r\n")
      {
        FieldFree(fields[i]);
      }
    }
  }

  /**
   Parsing a printed request header recovers the request line, and every field
   except those whose value holds a colon.
   */
  lemma ParseUndoesPrint(r: RequestLine, fields: seq<Field>)
    requires LegalRequestLine(r) && LegalFields(fields)
    ensures HeaderParsed(Lines([RequestText(r)] + FieldLines(fields))) == Parsed(r, FieldsAttached(NO_FIELDS, fields))
  {
    hide HeaderParsed, Lines, FieldsAttached, LinesAttached, RequestText, LineParsed;
    RequestLineRecovered(r);
    FieldsRecovered(NO_FIELDS, fields);
    LinesParsed(RequestText(r), FieldLines(fields));
  }

  ghost predicate DistinctKeys(fields: seq<Field>) {
    forall i, j :: 0 <= i < j < |fields| ==> fields[i].key != fields[j].key
  }

  /** The last field with this key that is not dropped. */
  ghost predicate LastKept(fields: seq<Field>, key: string, k: int) {
    && 0 <= k < |fields| && fields[k].key == key && Kept(fields[k])
    && forall j :: k < j < |fields| && fields[j].key == key ==> !Kept(fields[j])
  }

  ghost predicate NoneKept(fields: seq<Field>, key: string) {
    forall i :: 0 <= i < |fields| && fields[i].key == key ==> !Kept(fields[i])
  }

  /**
   Looking up a plain field yields the value of the last one with that key that is not dropped, and
   nothing if there is none.
   */
  lemma {:induction false} PlainFields(fields: seq<Field>, key: string)
    requires key != "Encapsulated"
    ensures var h := FieldsAttached(NO_FIELDS, fields).headers;
      && (forall k :: LastKept(fields, key, k) ==> key in h && h[key] == fields[k].value)
      && (NoneKept(fields, key) ==> key !in h)
  {
    hide ListParsed, Kept;
    if fields != [] {
      var n := |fields| - 1;
      var h, rest := FieldsAttached(NO_FIELDS, fields).headers, FieldsAttached(NO_FIELDS, fields[..n]).headers;
      PlainFields(fields[..n], key);
      var counts := fields[n].key == key && Kept(fields[n]);
      assert if counts then key in h && h[key] == fields[n].value
             else (key in h <==> key in rest) && (key in h ==> h[key] == rest[key]);
      hide FieldsAttached;
      forall k | LastKept(fields, key, k)
        ensures key in h && h[key] == fields[k].value
      {
        if k < n {
          assert !counts && LastKept(fields[..n], key, k);
        }
      }
      if NoneKept(fields, key) {
        assert !counts && NoneKept(fields[..n], key);
      }
    }
  }

  /** A later field replaces one with the same key; Encapsulated lists add up. */
  lemma AttachedTwice(f: Fields, key: string, value: string, again: string)
    ensures
      var g := Attached(Attached(f, key, value), key, again);
      if key == "Encapsulated" then
        && g.headers == f.headers
        && g.offsets == ListParsed(ListParsed(f.offsets, value).0, again).0
      else
        && g.offsets == f.offsets && key in g.headers && g.headers[key] == again
        && forall other :: other != key ==>
             && (other in g.headers <==> other in f.headers)
             && (other in f.headers ==> g.headers[other] == f.headers[other])
  {
    hide ListParsed;
  }

  /** White space around key and value does not count. */
  lemma SpacedField(base: Fields, a: string, key: string, b: string, c: string, value: string, d: string)
    requires Spaces(a) && Spaces(b) && Spaces(c) && Spaces(d)
    requires Trimmed(key) && Trimmed(value) && Free(key, ":") && Free(value, ":")
    ensures LineAttached(base, a + key + b + ":" + (c + value + d)) == Attached(base, key, value)
  {
    TrimExact(a, key, b);
    TrimExact(c, value, d);
    hide Attached, Pieces, Trim;
    var left, right := a + key + b, c + value + d;
    SpacesFree(a, key, b);
    SpacesFree(c, value, d);
    FirstPiece(left, ':', right, ":");
    FirstPiece(right, ':', "", ":");
  }

  lemma SpacesFree(a: string, s: string, b: string)
    requires Spaces(a) && Spaces(b) && Free(s, ":")
    ensures Free(a + s + b, ":")
  {
  }

  /** A line without a colon, or with two, is dropped. */
  lemma LineDropped(base: Fields, line: string, i: nat, j: nat)
    ensures Free(line, ":") ==> LineAttached(base, line) == base
    ensures i < j < |line| && line[i] == line[j] == ':' ==> LineAttached(base, line) == base
  {
    hide Pieces, Attached, Trim;
    if Free(line, ":") {
      FirstPiece(line, ':', "", ":");
    } else if i < j < |line| && line[i] == line[j] == ':' {
      var k := FindFirstOf(line, ":", 0);
      assert line == line[..k] + [':'] + line[k + 1..];
      FirstPiece(line[..k], ':', line[k + 1..], ":");
      assert line[k + 1..][j - k - 1] == ':';
      ManyPieces(line[k + 1..], ':');
    }
  }

  /** A request line counts if it has exactly three words, one blank apart; otherwise all stays as it was. */
  lemma ThreeWordsOnly(before: RequestLine, words: seq<string>)
    requires words != [] && forall i :: 0 <= i < |words| ==> IsWord(words[i])
    ensures LineParsed(before, Join(words, ' ')) ==
            if |words| == 3 then RequestLine(words[0], words[1], words[2]) else before
  {
    hide Trim, Pieces, Join, IsWord, Trimmed;
    WordsTrimmed(words);
    TrimNothing(Join(words, ' '));
    forall i | 0 <= i < |words|
      ensures Free(words[i], [' '])
    {
      WordFree(words[i]);
    }
    PiecesOfJoin(words, ' ');
  }

  lemma WordFree(w: string)
    requires IsWord(w)
    ensures Free(w, [' '])
  {
  }

  lemma WordsTrimmed(words: seq<string>)
    requires words != [] && forall i :: 0 <= i < |words| ==> IsWord(words[i])
    ensures Trimmed(Join(words, ' '))
  {
    assert IsWord(words[0]) && IsWord(words[|words| - 1]);
    hide Join;
    JoinEnds(words, ' ');
  }

  /** An empty block leaves the defaults. */
  lemma EmptyHeader()
    ensures HeaderParsed("") == Parsed(RequestLine("", "", "ICAP/1.0"), Fields(map[], Offsets(-1, -1, -1, -1, -1, -1)))
  {
    FirstPiece("", '\r', "", "\r\n");
    TrimNothing("");
    hide Pieces, Trim;
    FirstPiece("", ' ', "", " ");
  }

  /** The offsets come from the one Encapsulated field, wherever it stands. */
  lemma {:induction false} OffsetsRecovered(fields: seq<Field>, k: nat, order: seq<Entity>, m: Offsets)
    requires DistinctKeys(fields) && k < |fields|
    requires fields[k] == EncapsulatedField(order, m) && Sorts(order, m)
    ensures FieldsAttached(NO_FIELDS, fields).offsets == Restored(m)
    decreases |fields|
  {
    hide ListParsed, EncapsulatedText, Restored;
    var n := |fields| - 1;
    if k < n {
      OffsetsRecovered(fields[..n], k, order, m);
    } else {
      NoOffsets(fields[..n]);
      PrintedShape(order, m);
      EncapsulatedLaws.ParseUndoesPrint(order, m);
    }
  }

  lemma {:induction false} NoOffsets(fields: seq<Field>)
    requires forall i :: 0 <= i < |fields| ==> fields[i].key != "Encapsulated"
    ensures FieldsAttached(NO_FIELDS, fields).offsets == FRESH
  {
    if fields != [] {
      NoOffsets(fields[..|fields| - 1]);
    }
  }
}
