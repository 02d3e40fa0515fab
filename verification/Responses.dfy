/**
 Responses: their header, how they are sent, and how they are read back.
 */
module Responses {
  import opened Octets
  import opened Numerals
  import opened Text
  import opened Wire
  import opened Chunked
  import opened Encapsulated
  import opened EncapsulatedLaws
  import opened Message
  import opened MessageLaws
  import opened Framing
  import opened RequestHeaders

  const CONTINUE := 100
  const OK := 200
  const NO_CONTENT := 204
  const NOT_ALLOWED := 405
  const SERVER_ERROR := 500

  /**
   A response: `fields` are the entries of its header in key order, `encapsulated` is what its
   offsets print as.
   */
  datatype Response = Response(status: nat, fields: seq<Field>, encapsulated: string, payload: Payload)

  // ----- The header -----

  /** What the header of a new response takes from the clock and the build. */
  datatype Stamp = Stamp(date: string, istag: string, server: string)

  /** `init_defaults` */
  function Defaults(stamp: Stamp, status: nat): seq<Field> {
    (if status != CONTINUE then [Field("Connection", "close")] else []) +
    [Field("Date", stamp.date), Field("ISTag", stamp.istag), Field("Server", stamp.server)]
  }

  /** A response without payload. */
  function NewResponse(stamp: Stamp, status: nat): Response {
    Response(status, Defaults(stamp, status), "null-body=0", EMPTY)
  }

  ghost predicate KeySorted(fields: seq<Field>) {
    forall i, j :: 0 <= i < j < |fields| ==> Less(fields[i].key, fields[j].key)
  }

  /** `attach`, on the entries of the map in key order. */
  function Put(fields: seq<Field>, f: Field): seq<Field> {
    if fields == [] then [f]
    else if f.key == fields[0].key then [f] + fields[1..]
    else if Less(f.key, fields[0].key) then [f] + fields
    else [fields[0]] + Put(fields[1..], f)
  }

  /** Attaching a field replaces the one with its key or adds it, and keeps the order. */
  lemma {:induction false} PutReplaces(fields: seq<Field>, f: Field)
    requires KeySorted(fields)
    ensures KeySorted(Put(fields, f))
    ensures forall g :: g in Put(fields, f) <==> g == f || (g in fields && g.key != f.key)
  {
    if fields != [] {
      var first, rest := fields[0], fields[1..];
      assert fields == [first] + rest;
      LessOrder(f.key, first.key, "");
      forall g | g in rest
        ensures Less(first.key, g.key) && (Less(f.key, first.key) || f.key == first.key ==> Less(f.key, g.key))
      {
        LessOrder(f.key, first.key, g.key);
      }
      forall g | g in rest && g.key == f.key
        ensures Less(first.key, f.key) && f.key != first.key
      {
        LessOrder(first.key, f.key, "");
      }
      if f.key != first.key && !Less(f.key, first.key) {
        PutReplaces(rest, f);
        ConsSorted(first, Put(rest, f));
      } else {
        forall g | g in rest
          ensures g.key != f.key
        {
          LessOrder(f.key, g.key, "");
        }
        ConsSorted(f, if f.key == first.key then rest else fields);
      }
    }
  }

  lemma ConsSorted(f: Field, fields: seq<Field>)
    requires KeySorted(fields) && forall g :: g in fields ==> Less(f.key, g.key)
    ensures KeySorted([f] + fields)
  {
  }

  /** The response as it is sent: on a connection that is kept, its header says so. */
  function ForConnection(r: Response, keep: bool): Response {
    if keep then r.(fields := Put(r.fields, Field("Connection", "keep-alive"))) else r
  }

  /** A new response has its fields in key order. */
  lemma DefaultsSorted(stamp: Stamp, status: nat)
    ensures KeySorted(NewResponse(stamp, status).fields)
  {
    DefaultKeys();
    LessOrder("Connection", "Date", "ISTag");
    LessOrder("Date", "ISTag", "Server");
    LessOrder("Connection", "ISTag", "Server");
    hide Less;
  }

  /** It says that the connection closes, except for a 100 Continue, which says nothing of it. */
  lemma DefaultConnection(stamp: Stamp, status: nat)
    ensures
      var fields := NewResponse(stamp, status).fields;
      && (status != 100 ==> Field("Connection", "close") in fields)
      && (forall f :: f in fields && f.key == "Connection" ==> status != 100 && f.value == "close")
      && (forall f :: f in fields && f.key != "Connection" ==>
            f in {Field("Date", stamp.date), Field("ISTag", stamp.istag), Field("Server", stamp.server)})
      && |fields| == if status == 100 then 3 else 4
  {
    var fields := NewResponse(stamp, status).fields;
    assert status != 100 ==> fields[0] == Field("Connection", "close");
  }

  lemma DefaultKeys()
    ensures Less("Connection", "Date") && Less("Date", "ISTag") && Less("ISTag", "Server")
  {
  }

  /**
   On a connection that is kept the header says keep-alive, whatever it said before, and nothing
   else changes; otherwise the response goes out as it is.
   */
  lemma ConnectionSaid(r: Response)
    requires KeySorted(r.fields)
    ensures ForConnection(r, false) == r
    ensures
      var kept := ForConnection(r, true);
      && kept.status == r.status && kept.encapsulated == r.encapsulated && kept.payload == r.payload
      && KeySorted(kept.fields)
      && forall f :: f in kept.fields <==>
           f == Field("Connection", "keep-alive") || (f in r.fields && f.key != "Connection")
  {
    PutReplaces(r.fields, Field("Connection", "keep-alive"));
    hide Put, KeySorted;
  }

  // ----- Sending -----

  /** `response_status` */
  function Reason(status: nat): string {
    if status == CONTINUE then "Continue"
    else if status == OK then "OK"
    else if status == NO_CONTENT then "No modifications needed"
    else if status == 400 then "Bad request"
    else if status == 404 then "ICAP Service not found"
    else if status == NOT_ALLOWED then "Method not allowed for service"
    else if status == 408 then "Request timeout"
    else if status == SERVER_ERROR then "Server error"
    else if status == 501 then "Method not implemented"
    else if status == 502 then "Bad gateway"
    else if status == 503 then "Service overloaded"
    else if status == 505 then "ICAP version not supported by server"
    else ""
  }

  function StatusLine(status: nat): string {
    "ICAP/1.0" + " " + Itoa(status) + " " + Reason(status)
  }

  /** All that `send_response` writes. */
  function ResponseOctets(r: Response): string {
    StatusLine(r.status) + CRLF + (HeaderOctets(r.fields, r.encapsulated) + Emission(r.payload))
  }

  /** `send_response` */
  method SendResponse(r: Response, socket: Socket) returns (ok: bool)
    modifies socket`output
    ensures ok == socket.writable
    ensures socket.output == old(socket.output) + if ok then ResponseOctets(r) else ""
  {
    hide StatusLine, HeaderOctets, Emission;
    ok := socket.SendLine(StatusLine(r.status));
    if ok {
      ok := SendHeaderLines(r.fields, r.encapsulated, socket);
    }
    if ok {
      SendPayload(r.payload, socket);
      var line := StatusLine(r.status) + CRLF;
      Associative(old(socket.output) + line, HeaderOctets(r.fields, r.encapsulated), Emission(r.payload));
      Associative(old(socket.output), line, HeaderOctets(r.fields, r.encapsulated) + Emission(r.payload));
    }
  }

  /** The codes the program decides by. */
  lemma StatusCodes()
    ensures CONTINUE == 100 && OK == 200 && NO_CONTENT == 204 && NOT_ALLOWED == 405 && SERVER_ERROR == 500
  {
  }

  /** The texts of section 4.3.3 of RFC 3507, in the library's words; any other code has none. */
  lemma ReasonTable(status: nat)
    ensures Reason(100) == "Continue" && Reason(200) == "OK" && Reason(204) == "No modifications needed"
    ensures Reason(400) == "Bad request" && Reason(404) == "ICAP Service not found"
    ensures Reason(405) == "Method not allowed for service" && Reason(408) == "Request timeout"
    ensures Reason(500) == "Server error" && Reason(501) == "Method not implemented"
    ensures Reason(502) == "Bad gateway" && Reason(503) == "Service overloaded"
    ensures Reason(505) == "ICAP version not supported by server"
    ensures status !in {100, 200, 204, 400, 404, 405, 408, 500, 501, 502, 503, 505} ==> Reason(status) == ""
  {
  }

  lemma RefusalLine()
    ensures StatusLine(405) == "ICAP/1.0" + " " + "405" + " " + "Method not allowed for service"
  {
    hide Print, Reason;
    RefusalNumeral();
    ReasonTable(405);
  }

  lemma RefusalNumeral()
    ensures Itoa(405) == "405"
  {
    assert Print(40, 10) == "40";
  }

  // ----- Reading back -----

  /** The lines of a response's header block. */
  function HeadLines(r: Response): seq<string> {
    [StatusLine(r.status)] + FieldLines(r.fields + [Field("Encapsulated", r.encapsulated)])
  }

  lemma ReasonText(status: nat)
    ensures Free(Reason(status), "\r\n")
  {
    hide Reason;
    forall i | 0 <= i < |Reason(status)|
      ensures Reason(status)[i] !in "\r\n"
    {
      if status < 405 {
        NoControlBelow(status, i);
      } else if status < 501 {
        NoControlBetween(status, i);
      } else {
        NoControlAbove(status, i);
      }
    }
  }

  lemma NoControlBelow(status: nat, i: nat)
    requires status < 405 && i < |Reason(status)|
    ensures Reason(status)[i] >= ' '
  {
  }

  lemma NoControlBetween(status: nat, i: nat)
    requires 405 <= status < 501 && i < |Reason(status)|
    ensures Reason(status)[i] >= ' '
  {
  }

  lemma NoControlAbove(status: nat, i: nat)
    requires 501 <= status && i < |Reason(status)|
    ensures Reason(status)[i] >= ' '
  {
  }

  lemma StatusLineText(status: nat)
    ensures Free(StatusLine(status), "\r\n")
  {
    hide Reason, Print;
    ReasonText(status);
    PrintValue(status, 10);
    NumeralText(Itoa(status), 10);
  }

  /**
   The first line on the wire says the status: its words begin with the protocol and the number, and
   its reason is one of the library's.
   */
  lemma StatusOnWire(r: Response, tail: string)
    ensures
      var first := Pieces(ResponseOctets(r) + tail, "\r\n")[0];
      var words := Pieces(first, " ");
      |words| >= 3 && words[0] == "ICAP/1.0" && Atoi(words[1]) == r.status
  {
    hide Print, Reason, Pieces, Atoi, Emission, HeaderOctets;
    var line, number := StatusLine(r.status), Itoa(r.status);
    var rest := "\n" + (HeaderOctets(r.fields, r.encapsulated) + Emission(r.payload)) + tail;
    StatusLineText(r.status);
    assert ResponseOctets(r) + tail == line + ['\r'] + rest;
    FirstPiece(line, '\r', rest, "\r\n");
    PrintValue(r.status, 10);
    NumeralText(number, 10);
    AtoiRoundTrip(r.status);
    assert line == "ICAP/1.0" + [' '] + (number + [' '] + Reason(r.status));
    FirstPiece("ICAP/1.0", ' ', number + [' '] + Reason(r.status), " ");
    FirstPiece(number, ' ', Reason(r.status), " ");
  }

  /** Hence responses of different status never look the same. */
  lemma StatusesDiffer(r: Response, s: Response)
    requires r.status != s.status
    ensures ResponseOctets(r) != ResponseOctets(s)
  {
    hide Pieces, Atoi, ResponseOctets;
    StatusOnWire(r, "");
    StatusOnWire(s, "");
  }

  /** The refusal of an unknown method, octet by octet. */
  lemma RefusalText(stamp: Stamp)
    ensures ResponseOctets(NewResponse(stamp, 405)) ==
      "ICAP/1.0" + " " + "405" + " " + "Method not allowed for service" + "\r\n" +
      ("Connection: close\r\n" + ("Date: " + stamp.date + "\r\n" + ("ISTag: " + stamp.istag + "\r\n" +
       ("Server: " + stamp.server + "\r\n" + ("Encapsulated: null-body=0\r\n" + "\r\n")))))
  {
    RefusalLine();
    hide StatusLine;
    var r := NewResponse(stamp, 405);
    RefusalFields(stamp);
    assert Emission(EMPTY) == "" + "" + "" + "" == "";
    hide Emission, HeaderOctets;
    assert HeaderOctets(r.fields, r.encapsulated) + "" == HeaderOctets(r.fields, r.encapsulated);
  }

  lemma RefusalFields(stamp: Stamp)
    ensures HeaderOctets(NewResponse(stamp, 405).fields, "null-body=0") ==
      "Connection: close\r\n" + ("Date: " + stamp.date + "\r\n" + ("ISTag: " + stamp.istag + "\r\n" +
       ("Server: " + stamp.server + "\r\n" + ("Encapsulated: null-body=0\r\n" + "\r\n"))))
  {
    var fields := NewResponse(stamp, 405).fields + [Field("Encapsulated", "null-body=0")];
    assert fields == [Field("Connection", "close"), Field("Date", stamp.date), Field("ISTag", stamp.istag),
                      Field("Server", stamp.server), Field("Encapsulated", "null-body=0")];
    FixedLines();
    hide Lines;
    FieldStep(fields, 0);
    FieldStep(fields, 1);
    FieldStep(fields, 2);
    FieldStep(fields, 3);
    FieldStep(fields, 4);
    assert Lines([]) + "\r\n" == "\r\n" by {
      NoLines();
    }
    hide FieldLines;
    assert FieldLines(fields)[0..] == FieldLines(fields) && FieldLines(fields)[5..] == [];
  }

  lemma NoLines()
    ensures Lines([]) == ""
  {
  }

  lemma FixedLines()
    ensures FieldLine(Field("Connection", "close")) + CRLF == "Connection: close\r\n"
    ensures FieldLine(Field("Encapsulated", "null-body=0")) + CRLF == "Encapsulated: null-body=0\r\n"
    ensures "Date" + ": " == "Date: " && "ISTag" + ": " == "ISTag: " && "Server" + ": " == "Server: "
  {
  }

  lemma FieldStep(fields: seq<Field>, i: nat)
    requires i < |fields|
    ensures
      Lines(FieldLines(fields)[i..]) + CRLF ==
      FieldLine(fields[i]) + CRLF + (Lines(FieldLines(fields)[i + 1..]) + CRLF)
  {
    var lines := FieldLines(fields);
    assert lines[i..][1..] == lines[i + 1..];
    hide FieldLine;
    Associative(lines[i] + CRLF, Lines(lines[i + 1..]), CRLF);
  }

  lemma OctetsOfLines(r: Response, tail: string)
    ensures ResponseOctets(r) + tail == Lines(HeadLines(r)) + (CRLF + (Emission(r.payload) + tail))
  {
    hide StatusLine, Emission, FieldLines;
    var line, fields := StatusLine(r.status), FieldLines(r.fields + [Field("Encapsulated", r.encapsulated)]);
    assert HeadLines(r)[1..] == fields;
    assert Lines(HeadLines(r)) == line + CRLF + Lines(fields);
    hide Lines;
    Associative(Lines(fields), CRLF, Emission(r.payload));
    Associative(line + CRLF, Lines(fields), CRLF + Emission(r.payload));
    Associative(Lines(HeadLines(r)), CRLF + Emission(r.payload), tail);
    Associative(CRLF, Emission(r.payload), tail);
  }

  lemma FreshRestored(p: Payload)
    requires Total(p) < 0x8000_0000
    ensures Restored(Updated(FRESH, p)) == Updated(FRESH, p)
  {
    var m := Updated(FRESH, p);
    LaidFirst(p);
    UpdatedFresh(p);
    hide Updated, Restored;
    RestoredAt(m, Laid(p)[0]);
    forall e: Entity
      ensures Restored(m).At(e) == m.At(e)
    {
      RestoredAt(m, e);
    }
    SameOffsets(Restored(m), m);
  }

  lemma LaidFirst(p: Payload)
    ensures Laid(p) != [] && FreshOffset(p, Laid(p)[0]) == 0
  {
  }

  /** The header of a response can be framed: legal fields with distinct keys, and lines that are recognised. */
  ghost predicate LegalHead(r: Response) {
    && LegalFields(r.fields) && DistinctKeys(r.fields)
    && (forall i :: 0 <= i < |r.fields| ==> r.fields[i].key != "Encapsulated")
    && LegalLines(HeadLines(r)) && Recognised(HeadLines(r), 0)
  }

  /**
   A whole response, from the octets `send_response` writes: its header block is collected, the
   fields and the offsets are recovered, and under them the payload is read back and the stream
   left at the end of the response - exactly for the payloads that survive.
   */
  lemma ResponseArrives(
    r: Response, listed: seq<Entity>, order: seq<Entity>, tail: string, garbage: Garbage)
    requires LegalHead(r) && Total(r.payload) < 0x8000_0000
    requires r.encapsulated == EncapsulatedText(listed, Updated(FRESH, r.payload))
    requires Sorts(listed, Updated(FRESH, r.payload)) && Sorts(order, Updated(FRESH, r.payload))
    ensures
      var (raw, s) := BlockRead(In(ResponseOctets(r) + tail, true), "");
      var fields := HeaderParsed(raw).fields;
      && fields == FieldsAttached(NO_FIELDS, r.fields + [Field("Encapsulated", r.encapsulated)])
      && fields.offsets == Updated(FRESH, r.payload)
      && (SectionsRead(order, fields.offsets, s, EMPTY, garbage) == (r.payload, In(tail, true)) <==>
          ReadBack(r.payload, tail, garbage))
  {
    var m, fields := Updated(FRESH, r.payload), r.fields + [Field("Encapsulated", r.encapsulated)];
    hide BlockRead, HeaderParsed, Lines, StatusLine, Emission, FieldLines, LinesAttached, FieldsAttached, LineParsed,
      EncapsulatedText, Updated, Restored, SectionsRead, ReadBack, Recognised, LegalLines, ResponseOctets, Sorts;
    OctetsOfLines(r, tail);
    HeaderFraming(HeadLines(r), Emission(r.payload) + tail);
    StatusLineText(r.status);
    EncapsulatedLegal(r.fields, r.encapsulated, listed, m);
    FieldsRecovered(NO_FIELDS, fields);
    LinesParsed(StatusLine(r.status), FieldLines(fields));
    OffsetsRecovered(fields, |r.fields|, listed, m);
    FreshRestored(r.payload);
    MessageRoundTrip(r.payload, order, tail, garbage);
  }

  lemma EncapsulatedLegal(fields: seq<Field>, text: string, listed: seq<Entity>, m: Offsets)
    requires LegalFields(fields) && text == EncapsulatedText(listed, m)
    ensures LegalFields(fields + [Field("Encapsulated", text)])
  {
    hide EncapsulatedText;
    PrintedShape(listed, m);
  }
}
