/**
 A connection that loses its place: a request with a method nobody knows gets two answers.
 */
module LostPlace {
  import opened Octets
  import opened Numerals
  import opened Text
  import opened Wire
  import opened Chunked
  import opened Encapsulated
  import opened EncapsulatedLaws
  import opened MessageLaws
  import opened Preview
  import opened Framing
  import opened RequestHeaders
  import opened Responses
  import opened Session
  import opened Worker
  import opened Pipeline

  const NO_BODY := Coded([], "0", "")

  const INNER_LINE := RequestLine("OPTIONS", "u", "ICAP/1.0")
  const INNER_LIST := Field("Encapsulated", "null-body=0")

  /** An OPTIONS request without sections. */
  const INNER := Inquiry(RequestText(INNER_LINE), FieldLines([INNER_LIST]), [], NullBody, NO_BODY, None)

  const OUTER_LINE := RequestLine("FOO", "u", "ICAP/1.0")
  const OUTER_LIST := Field("Encapsulated", "req-hdr=0, null-body=49")
  const KEEP := Field("Connection", "keep-alive")

  /** A request that asks to keep the connection, and whose request header section reads like the one above. */
  const OUTER := Inquiry(
    RequestText(OUTER_LINE), FieldLines([OUTER_LIST, KEEP]),
    [Part(ReqHdr, Lines(HeaderBlock(INNER)) + CRLF)], NullBody, NO_BODY, None)

  /** Printable text. */
  ghost predicate Plain(s: string) {
    forall i :: 0 <= i < |s| ==> ' ' <= s[i] <= '~'
  }

  lemma PlainLine(s: string)
    requires Plain(s)
    ensures LineText(s) && Free(s, "\r\n")
  {
  }

  /** Printable text without blank and colon. */
  ghost predicate Token(s: string) {
    s != "" && forall i :: 0 <= i < |s| ==> ' ' < s[i] <= '~' && s[i] != ':'
  }

  lemma TokenText(s: string)
    requires Token(s)
    ensures Plain(s) && Trimmed(s) && IsWord(s) && Free(s, ":\r\n")
  {
  }

  ghost predicate PlainField(f: Field) {
    Token(f.key) && Plain(f.value) && Trimmed(f.value) && |f.key| + |f.value| <= 1000
  }

  ghost predicate PlainRequest(r: RequestLine, fields: seq<Field>) {
    && Token(r.verb) && Token(r.uri) && Token(r.protocol)
    && |r.verb| + |r.uri| + |r.protocol| <= 1000
    && forall i :: 0 <= i < |fields| ==> PlainField(fields[i])
  }

  lemma PlainLegal(r: RequestLine, fields: seq<Field>)
    requires PlainRequest(r, fields)
    ensures LegalRequestLine(r) && LegalFields(fields)
    ensures Plain(RequestText(r))
    ensures forall i :: 0 <= i < |fields| ==> Plain(FieldLine(fields[i]))
  {
    TokenText(r.verb);
    TokenText(r.uri);
    TokenText(r.protocol);
    hide Token, IsWord, Trimmed;
    forall i | 0 <= i < |fields|
      ensures LegalField(fields[i]) && Plain(FieldLine(fields[i]))
    {
      assert PlainField(fields[i]);
      TokenText(fields[i].key);
      PlainLine(fields[i].value);
    }
  }

  /** A short and plain header is framed and recovered. */
  lemma PlainHeader(q: Inquiry, r: RequestLine, fields: seq<Field>)
    requires PlainRequest(r, fields)
    requires q.top == RequestText(r) && q.lines == FieldLines(fields)
    ensures Parse(q) == Parsed(r, FieldsAttached(NO_FIELDS, fields))
    ensures LegalLines(HeaderBlock(q)) && Recognised(HeaderBlock(q), 0)
    ensures forall i :: 0 <= i < |HeaderBlock(q)| ==> Free(HeaderBlock(q)[i], "\r\n")
  {
    hide LineParsed, LinesAttached, FieldsAttached, Recognised, LegalRequestLine, LegalFields;
    PlainLegal(r, fields);
    RequestLineRecovered(r);
    FieldsRecovered(NO_FIELDS, fields);
    forall i | 0 <= i < |HeaderBlock(q)|
      ensures HeaderBlock(q)[i] != "" && LineText(HeaderBlock(q)[i]) && Free(HeaderBlock(q)[i], "\r\n")
      ensures |HeaderBlock(q)[i]| + |CRLF| <= TAKE
    {
      if i == 0 {
        assert HeaderBlock(q)[i] == RequestText(r);
      } else {
        assert HeaderBlock(q)[i] == FieldLine(fields[i - 1]) && PlainField(fields[i - 1]);
      }
      PlainLine(HeaderBlock(q)[i]);
    }
    ShortLinesRecognised(HeaderBlock(q));
  }

  lemma InnerPlain()
    ensures PlainRequest(INNER_LINE, [INNER_LIST])
  {
    hide PlainField;
    PlainKey();
    PlainInnerList();
  }

  lemma PlainKey()
    ensures Token("Encapsulated")
  {
  }

  lemma PlainInnerList()
    ensures PlainField(INNER_LIST)
  {
    PlainKey();
    hide Token;
  }

  lemma OuterPlain()
    ensures PlainRequest(OUTER_LINE, [OUTER_LIST, KEEP])
  {
    hide PlainField;
    PlainOuterList();
    PlainKeep();
  }

  lemma PlainOuterList()
    ensures PlainField(OUTER_LIST)
  {
    PlainKey();
    hide Token;
  }

  lemma PlainKeep()
    ensures PlainField(KEEP)
  {
  }

  lemma InnerWellFormed()
    ensures WellFormed(INNER) && Parse(INNER).line == INNER_LINE && !KeepAlive(Parse(INNER).fields)
  {
    hide LineParsed, LinesAttached, ListParsed, RequestText, FieldLines, PlainRequest, Recognised, LegalLines,
      HeaderBlock;
    InnerPlain();
    PlainHeader(INNER, INNER_LINE, [INNER_LIST]);
    assert [INNER_LIST][..0] == [];
    NothingPresent();
  }

  /** A list of two entries, printed in the usual way, is parsed to them. */
  lemma TwoEntriesParsed(first: Entity, second: Entity, n: nat)
    requires first != second
    ensures ListParsed(FRESH, EntryText(first, 0) + [','] + (" " + EntryText(second, n))) ==
            (FRESH.With(first, 0).With(second, n), true)
  {
    hide EntryText, ListText, ListParsed;
    var m, list := FRESH.With(first, 0).With(second, n), [first, second];
    TwoEntriesText(list, m);
    PresentParsed(list, m);
    forall e: Entity
      ensures Entered(FRESH, list, m).At(e) == m.At(e)
    {
      assert list[0] == first && list[1] == second;
    }
    SameOffsets(Entered(FRESH, list, m), m);
  }

  lemma TwoEntriesText(list: seq<Entity>, m: Offsets)
    requires |list| == 2 && m.At(list[0]) >= 0 && m.At(list[1]) >= 0
    ensures
      ListText(list, m) ==
      EntryText(list[0], m.At(list[0])) + [','] + (" " + EntryText(list[1], m.At(list[1])))
  {
    hide EntryText;
    var items := Items(list, m);
    assert items[0] == "" + EntryText(list[0], m.At(list[0])) == EntryText(list[0], m.At(list[0]));
    assert items[1] == " " + EntryText(list[1], m.At(list[1]));
    assert items[1..] == [items[1]];
    assert list != [] && ListText(list, m) == Join(items, ',');
    assert Join(items, ',') == items[0] + [','] + Join([items[1]], ',');
  }

  lemma OuterListParsed()
    ensures ListParsed(FRESH, OUTER_LIST.value) == (FRESH.With(ReqHdr, 0).With(NullBody, 49), true)
  {
    hide ListParsed, EntryText;
    OuterEntries();
    TwoEntriesParsed(ReqHdr, NullBody, 49);
  }

  lemma OuterEntries()
    ensures EntryText(ReqHdr, 0) + [','] + (" " + EntryText(NullBody, 49)) == "req-hdr=0, null-body=49"
  {
    OuterNumerals();
    hide Print;
  }

  lemma OuterNumerals()
    ensures Itoa(0) == "0" && Itoa(49) == "49"
  {
    assert Print(4, 10) == "4";
  }

  lemma SectionLength()
    ensures |Lines(HeaderBlock(INNER)) + CRLF| == 49
  {
    var line := FieldLine(INNER_LIST);
    assert FieldLines([INNER_LIST]) == [line];
    assert |line| == 25 && |RequestText(INNER_LINE)| == 18;
    hide FieldLines, FieldLine, RequestText;
    assert HeaderBlock(INNER)[1..] == [line];
    assert [line][1..] == [];
    assert |Lines([line])| == 27;
  }

  lemma OuterAnnounced()
    ensures LegalHeaders(OUTER.headers)
    ensures Announced(OUTER.headers, NullBody) == FRESH.With(ReqHdr, 0).With(NullBody, 49)
  {
    SectionLength();
    var text := Lines(HeaderBlock(INNER)) + CRLF;
    hide Lines, HeaderBlock;
    assert OUTER.headers == [Part(ReqHdr, text)];
    assert OUTER.headers[1..] == [];
    assert Texts(OUTER.headers) == text + "" == text;
    SameOffsets(Announced(OUTER.headers, NullBody), FRESH.With(ReqHdr, 0).With(NullBody, 49));
  }

  lemma OuterFields()
    ensures FieldsAttached(NO_FIELDS, [OUTER_LIST, KEEP]) ==
            Fields(map["Connection" := "keep-alive"], FRESH.With(ReqHdr, 0).With(NullBody, 49))
  {
    hide ListParsed;
    OuterListParsed();
    var both := [OUTER_LIST, KEEP];
    assert both[..1] == [OUTER_LIST] && [OUTER_LIST][..0] == [];
    assert Kept(OUTER_LIST) && Kept(KEEP);
    assert KEEP.key[0] != OUTER_LIST.key[0];
    hide Kept;
    assert FieldsAttached(NO_FIELDS, [OUTER_LIST]) == Attached(NO_FIELDS, OUTER_LIST.key, OUTER_LIST.value);
    assert FieldsAttached(NO_FIELDS, both) ==
           Attached(FieldsAttached(NO_FIELDS, [OUTER_LIST]), KEEP.key, KEEP.value);
  }

  lemma OuterWellFormed()
    ensures WellFormed(OUTER) && Parse(OUTER).line == OUTER_LINE && KeepAlive(Parse(OUTER).fields)
  {
    hide LineParsed, LinesAttached, ListParsed, RequestText, FieldLines, PlainRequest, Recognised, LegalLines,
      HeaderBlock, Announced, LegalHeaders, FieldsAttached;
    OuterPlain();
    PlainHeader(OUTER, OUTER_LINE, [OUTER_LIST, KEEP]);
    OuterAnnounced();
    OuterFields();
  }

  lemma OuterOctets(tail: string)
    ensures MessageOctets(OUTER, tail) == OnWire(INNER, tail)
    ensures MessageOctets(INNER, tail) == tail
  {
    hide Lines, HeaderBlock;
    var block := Lines(HeaderBlock(INNER));
    assert OUTER.headers[1..] == [];
    assert Texts(OUTER.headers) == (block + CRLF) + "" == block + CRLF;
    assert "" + ("" + tail) == tail;
    assert MessageOctets(INNER, tail) == "" + ("" + ("" + tail)) == tail;
    Associative(block, CRLF, tail);
  }

  /**
   The request has one method nobody knows; the client gets the answer to that, and then an
   answer to an OPTIONS request it never sent.
   */
  lemma TwoAnswers(w: Worker, tail: string, garbage: Garbage, t: Turn, next: Turn)
    requires "FOO" !in w.handlers
    requires w.TurnFrom(In(OnWire(OUTER, tail), true), true, garbage, t) && t.Served?
    requires w.TurnFrom(Behind(t), true, garbage, next) && next.Served?
    ensures WellFormed(OUTER) && GoesOn(t)
    ensures SentIn(t) == [ForConnection(NewResponse(w.stamp, NOT_ALLOWED), true)]
    ensures SentIn(next) == [w.options]
    ensures Behind(next) == In(tail, true)
  {
    hide WellFormed, OnWire, MessageOctets, Worker.TurnFrom, KeepAlive, LegalHeaders, HandlerAnswers, Follows;
    OuterWellFormed();
    InnerWellFormed();
    OuterOctets(tail);
    WellFormedHeaders(OUTER);
    WellFormedHeaders(INNER);
    TurnAnswers(w, OUTER, tail, garbage, t);
    TurnAnswers(w, INNER, tail, garbage, next);
  }
}
