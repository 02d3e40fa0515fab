/**
 Two previews, alike but for a header section: of one the rest of the body is read, of the other
 it is lost, and the connection loses its place.
 */
module LostRest {
  import opened Octets
  import opened Numerals
  import opened Text
  import opened Wire
  import opened Chunked
  import opened Encapsulated
  import opened EncapsulatedLaws
  import opened Message
  import opened MessageLaws
  import opened Preview
  import opened Framing
  import opened RequestHeaders
  import opened Responses
  import opened Handler
  import opened Session
  import opened Worker
  import opened Pipeline
  import opened LostPlace

  const LINE := RequestLine("REQMOD", "u", "ICAP/1.0")
  const SIZE := Field("Preview", "1")

  /** A preview of "P" whose rest is "Q". */
  function PreviewOf(list: Field, headers: seq<Part>): Inquiry {
    Inquiry(RequestText(LINE), FieldLines([list, SIZE, KEEP]), headers, ReqBody, AsCoded("P"), Some(AsCoded("Q")))
  }

  const LOST_LIST := Field("Encapsulated", "req-body=0")
  const READ_LIST := Field("Encapsulated", "req-hdr=0, req-body=1")

  /** Without header section. */
  const LOST := PreviewOf(LOST_LIST, [])

  /** With one. */
  const READ := PreviewOf(READ_LIST, [Part(ReqHdr, "H")])

  /** Read as lines, the rest of the body is a block of three. */
  lemma RestOctets(tail: string)
    ensures Encoding(AsCoded("Q")) + tail == Lines(["1", "Q", "0"]) + (CRLF + tail)
  {
    SingleBlock("Q");
    assert DecToHex(1) == "1";
    hide Encoding, Print;
    var lines := ["1", "Q", "0"];
    assert lines[1..] == ["Q", "0"] && ["Q", "0"][1..] == ["0"] && ["0"][1..] == [];
    assert Lines(["0"]) == "0" + CRLF + "" == "0\r\n";
    assert Lines(["Q", "0"]) == "Q" + CRLF + Lines(["0"]) == "Q\r\n0\r\n";
    assert Lines(lines) == "1" + CRLF + Lines(["Q", "0"]) == "1\r\nQ\r\n0\r\n";
    assert Encoding(AsCoded("Q")) == "1" + CRLF + "Q" + FINAL == "1\r\nQ\r\n0\r\n\r\n";
    assert Lines(lines) + CRLF == Encoding(AsCoded("Q"));
    Associative(Lines(lines), CRLF, tail);
  }

  lemma RestLines()
    ensures LegalLines(["1", "Q", "0"]) && Recognised(["1", "Q", "0"], 0)
    ensures Free("1", "\r\n") && forall i :: 0 <= i < |["Q", "0"]| ==> Free(["Q", "0"][i], "\r\n")
  {
    ShortLinesRecognised(["1", "Q", "0"]);
  }

  lemma RestFields()
    ensures LinesAttached(NO_FIELDS, ["Q", "0"]) == NO_FIELDS
  {
    var lines := ["Q", "0"];
    assert lines[..1] == ["Q"] && ["Q"][..0] == [];
    FirstPiece("Q", ':', "", ":");
    FirstPiece("0", ':', "", ":");
  }

  /** So it is taken for the header of a request without method. */
  lemma RestHeader(tail: string)
    ensures
      var (raw, s) := BlockRead(In(Encoding(AsCoded("Q")) + tail, true), "");
      s == In(tail, true) && HeaderParsed(raw) == Parsed(UNKNOWN, NO_FIELDS)
  {
    RestFields();
    hide BlockRead, HeaderParsed, LinesAttached, Lines, Encoding, LegalLines, Recognised;
    RestOctets(tail);
    RestLines();
    HeaderFraming(["1", "Q", "0"], tail);
    assert ["1"] + ["Q", "0"] == ["1", "Q", "0"];
    LinesParsed("1", ["Q", "0"]);
    TrimNothing("1");
    FirstPiece("1", ' ', "", " ");
  }

  // ----- The header -----

  lemma PlainLine()
    ensures Token("REQMOD") && Token("u") && Token("ICAP/1.0")
  {
  }

  lemma PlainSize()
    ensures PlainField(SIZE)
  {
  }

  lemma PlainLost()
    ensures PlainField(LOST_LIST)
  {
    PlainKey();
    hide Token;
  }

  lemma PlainRead()
    ensures PlainField(READ_LIST)
  {
    PlainKey();
    hide Token;
  }

  lemma PreviewPlain(list: Field)
    requires PlainField(list)
    ensures PlainRequest(LINE, [list, SIZE, KEEP])
  {
    hide PlainField, Token;
    PlainLine();
    PlainSize();
    PlainKeep();
  }

  lemma PreviewFields(list: Field)
    requires list.key == "Encapsulated" && Kept(list)
    ensures
      var f := FieldsAttached(NO_FIELDS, [list, SIZE, KEEP]);
      && f.offsets == ListParsed(FRESH, list.value).0
      && "Preview" in f.headers && f.headers["Preview"] == "1"
      && "Connection" in f.headers && f.headers["Connection"] == "keep-alive"
  {
    hide ListParsed;
    var all := [list, SIZE, KEEP];
    assert all[..2] == [list, SIZE] && [list, SIZE][..1] == [list] && [list][..0] == [];
    assert Kept(SIZE) && Kept(KEEP);
    assert SIZE.key[0] != list.key[0] && KEEP.key[0] != list.key[0] && SIZE.key[0] != KEEP.key[0];
    hide Kept;
    assert FieldsAttached(NO_FIELDS, [list]) == Attached(NO_FIELDS, list.key, list.value);
    assert FieldsAttached(NO_FIELDS, [list, SIZE]) ==
           Attached(FieldsAttached(NO_FIELDS, [list]), SIZE.key, SIZE.value);
    assert FieldsAttached(NO_FIELDS, all) == Attached(FieldsAttached(NO_FIELDS, [list, SIZE]), KEEP.key, KEEP.value);
  }

  lemma PreviewIsOne(fields: Fields)
    requires "Preview" in fields.headers && fields.headers["Preview"] == "1"
    ensures Previews(fields)
  {
    assert Itoa(1) == "1";
    PrintedSizePreviews(fields, 1);
  }

  lemma LostListParsed()
    ensures ListParsed(FRESH, LOST_LIST.value) == (FRESH.With(ReqBody, 0), true)
  {
    var m, list := FRESH.With(ReqBody, 0), [ReqBody];
    assert Itoa(0) == "0";
    assert EntryText(ReqBody, 0) == "req-body=0";
    hide EntryText;
    assert Items(list, m)[0] == "" + EntryText(ReqBody, 0) == EntryText(ReqBody, 0);
    assert ListText(list, m) == LOST_LIST.value;
    hide ListText;
    PresentParsed(list, m);
    forall e: Entity
      ensures Entered(FRESH, list, m).At(e) == m.At(e)
    {
      assert list[0] == ReqBody;
    }
    SameOffsets(Entered(FRESH, list, m), m);
  }

  lemma LostWellFormed()
    ensures WellFormed(LOST) && Parse(LOST).line == LINE && KeepAlive(Parse(LOST).fields)
    ensures Previews(Parse(LOST).fields)
  {
    hide LineParsed, LinesAttached, ListParsed, RequestText, FieldLines, PlainRequest, Recognised, LegalLines,
      HeaderBlock, FieldsAttached, Legal, Previews;
    PlainLost();
    PreviewPlain(LOST_LIST);
    PlainHeader(LOST, LINE, [LOST_LIST, SIZE, KEEP]);
    PreviewFields(LOST_LIST);
    PreviewIsOne(Parse(LOST).fields);
    LostListParsed();
    SingleBlock("P");
  }

  lemma ReadListParsed()
    ensures ListParsed(FRESH, READ_LIST.value) == (FRESH.With(ReqHdr, 0).With(ReqBody, 1), true)
  {
    hide ListParsed;
    assert Itoa(0) == "0" && Itoa(1) == "1";
    hide Print;
    assert EntryText(ReqHdr, 0) + [','] + (" " + EntryText(ReqBody, 1)) == READ_LIST.value;
    TwoEntriesParsed(ReqHdr, ReqBody, 1);
  }

  lemma ReadAnnounced()
    ensures LegalHeaders(READ.headers)
    ensures Announced(READ.headers, ReqBody) == FRESH.With(ReqHdr, 0).With(ReqBody, 1)
  {
    assert READ.headers[1..] == [];
    assert Texts(READ.headers) == "H" + "" == "H";
    SameOffsets(Announced(READ.headers, ReqBody), FRESH.With(ReqHdr, 0).With(ReqBody, 1));
  }

  lemma ReadWellFormed()
    ensures WellFormed(READ) && Parse(READ).line == LINE && KeepAlive(Parse(READ).fields)
    ensures Previews(Parse(READ).fields)
  {
    hide LineParsed, LinesAttached, ListParsed, RequestText, FieldLines, PlainRequest, Recognised, LegalLines,
      HeaderBlock, FieldsAttached, Legal, Previews, Announced, LegalHeaders;
    PlainRead();
    PreviewPlain(READ_LIST);
    PlainHeader(READ, LINE, [READ_LIST, SIZE, KEEP]);
    PreviewFields(READ_LIST);
    PreviewIsOne(Parse(READ).fields);
    ReadListParsed();
    ReadAnnounced();
    SingleBlock("P");
  }

  // ----- What becomes of them -----

  /** The worker's REQMOD handler has one module, which always asks to continue. */
  ghost predicate AlwaysAsks(w: Worker, m: Modifier) {
    && "REQMOD" in w.handlers && w.handlers["REQMOD"].handlers == [m]
    && m.loaded && forall v :: m.onPreview(v).status == CONTINUE
  }

  lemma PreviewAnswers(w: Worker, m: Modifier, q: Inquiry)
    requires AlwaysAsks(w, m)
    requires q == LOST || q == READ
    ensures Acceptable(w, q) && Processes(w, q)
    ensures LegalHeaders(q.headers)
    ensures Replies(w, q) == [m.onPreview(FirstView(q)), ForConnection(m.onModify(FullView(q)), true)]
  {
    hide WellFormed, Parse, Previews, FirstView, FullView, Legal, KeepAlive;
    LostWellFormed();
    ReadWellFormed();
    WellFormedHeaders(q);
    SingleBlock("P");
    SingleBlock("Q");
    hide Encoding, Data;
    assert Asked([m], q) == Continued(m.onPreview(FirstView(q)));
    assert [m][1..] == [];
    assert Modified([m], FullView(q)) == Some(m.onModify(FullView(q)));
  }

  lemma LostView()
    ensures !RestRead(LOST) && FirstView(LOST).payload.reqBody == "P" && FullView(LOST) == FirstView(LOST)
  {
    hide Parse, Updated, Data, Legal, Encoding, Announced;
    SingleBlock("P");
    RestLost(LOST);
  }

  lemma ReadView()
    ensures RestRead(READ) && LegalHeaders(READ.headers) && FullView(READ).payload.reqBody == "PQ"
  {
    hide Parse, Updated, Data, Legal, Encoding, Announced;
    SingleBlock("P");
    SingleBlock("Q");
    ReadAnnounced();
    assert "P" + "Q" == "PQ";
  }

  /** With a header section, the client gets a 100 Continue and the answer to its whole body. */
  lemma RestIsRead(w: Worker, m: Modifier, tail: string, garbage: Garbage, t: Turn)
    requires AlwaysAsks(w, m)
    requires w.TurnFrom(In(OnWire(READ, tail), true), true, garbage, t) && t.Served?
    ensures Acceptable(w, READ) && LegalHeaders(READ.headers)
    ensures SentIn(t) == [m.onPreview(FirstView(READ)), ForConnection(m.onModify(FullView(READ)), true)]
    ensures FullView(READ).payload.reqBody == "PQ" && Behind(t) == In(tail, true)
  {
    hide WellFormed, OnWire, MessageOctets, Worker.TurnFrom, KeepAlive, LegalHeaders, Replies, Follows, AlwaysAsks,
      FirstView, FullView, Processes, RestRead, Acceptable, Data, Parse;
    PreviewAnswers(w, m, READ);
    ReadView();
    SingleBlock("P");
    TurnAnswers(w, READ, tail, garbage, t);
  }

  /**
   Without one, the module answers to the first octet of the body only; the rest of it is taken for
   a request, and gets an answer of its own.
   */
  lemma RestIsLost(w: Worker, m: Modifier, tail: string, garbage: Garbage, t: Turn, next: Turn)
    requires AlwaysAsks(w, m) && "" !in w.handlers
    requires w.TurnFrom(In(OnWire(LOST, tail), true), true, garbage, t) && t.Served?
    requires w.TurnFrom(Behind(t), true, garbage, next) && next.Served?
    ensures Acceptable(w, LOST) && LegalHeaders(LOST.headers)
    ensures SentIn(t) == [m.onPreview(FirstView(LOST)), ForConnection(m.onModify(FirstView(LOST)), true)]
    ensures FirstView(LOST).payload.reqBody == "P" && Behind(t) == In(Encoding(AsCoded("Q")) + tail, true)
    ensures SentIn(next) == [NewResponse(w.stamp, NOT_ALLOWED)]
  {
    hide WellFormed, OnWire, MessageOctets, KeepAlive, LegalHeaders, Replies, Follows, AlwaysAsks, FirstView,
      FullView, Processes, RestRead, Acceptable, Data, Parse, BlockRead, HeaderParsed, Encoding, Handled, Sorts,
      Updated, SectionsRead;
    PreviewAnswers(w, m, LOST);
    LostView();
    SingleBlock("P");
    TurnAnswers(w, LOST, tail, garbage, t);
    RestHeader(tail);
    NotKept();
  }

  lemma NotKept()
    ensures !KeepAlive(NO_FIELDS)
  {
  }
}
