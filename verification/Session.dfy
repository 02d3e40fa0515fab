/**
 Laws of request processing: what is sent and when, whatever the modifiers
 answer; and the path of a whole request from its octets on the wire to what the
 modifiers are shown.
 */
module Session {
  import opened Octets
  import opened Numerals
  import opened Text
  import opened Wire
  import opened Chunked
  import opened Encapsulated
  import opened EncapsulatedLaws
  import opened Message
  import opened MessageLaws
  import opened Framing
  import opened RequestHeaders
  import opened Responses
  import opened Preview
  import opened Handler

  // ----- Safety, over all modifiers -----

  /** The statuses sent for one request: at most one interim response, then the final one. */
  function Statuses(done: Processed): seq<int> {
    (if done.interim.Some? then [done.interim.value.status] else []) + [done.response.status]
  }

  /**
   What the protocol allows a server to send for a request: one final response, and before it at
   most one 100 Continue, if the client is waiting for one.
   */
  predicate Proper(statuses: seq<int>, waiting: bool) {
    && statuses != [] && statuses[|statuses| - 1] != CONTINUE
    && (|statuses| == 1 || (waiting && |statuses| == 2 && statuses[0] == CONTINUE))
  }

  /**
   For all modifiers.  A 100 Continue is sent on the way exactly if the first module that decides
   the preview asks for it, the preview was not all of the body, and it can be sent; if it is
   asked for in vain, the client gets an error.  The modify phase runs exactly without preview,
   after that 100 Continue, or with no module loaded; it is shown what the first read yields, or
   after the 100 Continue what both reads do.  What is sent is proper except in one case: the
   modify phase runs, no module answers OK, and the last one loaded answers 100 Continue.
   */
  lemma ProtocolSafety(
    handlers: seq<Modifier>, stamp: Stamp, header: Parsed, s: In, writable: bool,
    order: seq<Entity>, reorder: seq<Entity>, garbage: Garbage)
    requires reorder != []
    ensures
      var done := Handled(handlers, stamp, header, s, writable, order, reorder, garbage);
      var (p1, s1) := SectionsRead(order, header.fields.offsets, s, EMPTY, garbage);
      var v1 := View(header.line, header.fields.(offsets := Updated(header.fields.offsets, p1)), p1);
      var (p2, s2) := LastRead(reorder[|reorder| - 1], s1, p1, garbage);
      var v2 := View(header.line, v1.fields.(offsets := Updated(v1.fields.offsets, p2)), p2);
      var previewing := Previews(header.fields);
      var asked := previewing && AsksToContinue(handlers, v1);
      var continued := asked && !p1.ieof && writable;
      var modifying := !previewing || continued || NoneLoaded(handlers);
      var v := if continued then v2 else v1;
      && (done.interim.Some? <==> continued)
      && (done.interim.Some? ==> done.interim.value.status == CONTINUE)
      && (asked && !continued ==> done.response == NewResponse(stamp, 500))
      && (!asked && !modifying ==> PreviewAnswer(handlers, v1, done.response))
      && done.shown == (if modifying then Some(v) else None)
      && done.stream == (if continued then s2 else s1)
      && (modifying ==> FinalAnswer(handlers, v, stamp, done.response))
      && (Proper(Statuses(done), previewing && !p1.ieof) <==> !(modifying && EndsInContinue(handlers, v)))
  {
    hide SectionsRead, Updated, LastRead, Modified, PreviewVerdict, AsksToContinue, EndsInContinue, NoneLoaded,
      FinalAnswer, PreviewAnswer, Previews;
    var done := Handled(handlers, stamp, header, s, writable, order, reorder, garbage);
    var p1 := SectionsRead(order, header.fields.offsets, s, EMPTY, garbage).0;
    var fields := header.fields.(offsets := Updated(header.fields.offsets, p1));
    assert PreviewSize(fields) == PreviewSize(header.fields);
    StatusesProper(done, PreviewSize(fields) >= 0 && !p1.ieof);
    PreviewsRead(header.fields);
    hide Proper, Statuses, PreviewSize;
    var v1 := View(header.line, fields, p1);
    PreviewOutcome(handlers, v1);
    PreviewAnswered(handlers, v1);
    if done.shown.Some? {
      ContinueReturned(handlers, done.shown.value);
      ModifyAnswered(handlers, done.shown.value, stamp);
    }
  }

  lemma StatusesProper(done: Processed, waiting: bool)
    ensures Proper(Statuses(done), waiting) <==>
      && done.response.status != CONTINUE
      && (done.interim.Some? ==> waiting && done.interim.value.status == CONTINUE)
  {
  }

  /**
   What the Preview header decides.  Without it, or with an empty one, the modify phase answers and
   nothing else happens; with a size printed in it, be it 0, the preview phase answers, unless it
   asks to continue or there is no module.
   */
  lemma PreviewByHeader(
    handlers: seq<Modifier>, stamp: Stamp, header: Parsed, s: In, writable: bool,
    order: seq<Entity>, reorder: seq<Entity>, garbage: Garbage)
    requires reorder != []
    ensures
      var done := Handled(handlers, stamp, header, s, writable, order, reorder, garbage);
      var (p1, s1) := SectionsRead(order, header.fields.offsets, s, EMPTY, garbage);
      var v1 := View(header.line, header.fields.(offsets := Updated(header.fields.offsets, p1)), p1);
      var h := header.fields.headers;
      && ("Preview" !in h || h["Preview"] == "" ==>
          done == Processed(done.response, None, Some(v1), s1) && FinalAnswer(handlers, v1, stamp, done.response))
      && ("Preview" in h && (exists n: nat :: h["Preview"] == Itoa(n)) && !NoneLoaded(handlers) ==>
          if AsksToContinue(handlers, v1) then !p1.ieof && writable <==> done.interim.Some?
          else done == Processed(done.response, None, None, s1) && PreviewAnswer(handlers, v1, done.response))
  {
    hide SectionsRead, Updated, LastRead, AsksToContinue, EndsInContinue, NoneLoaded, FinalAnswer, PreviewAnswer,
      Handled, Negative, Print;
    ProtocolSafety(handlers, stamp, header, s, writable, order, reorder, garbage);
    var h := header.fields.headers;
    if "Preview" in h {
      if n: nat :| h["Preview"] == Itoa(n) {
        PrintedSizePreviews(header.fields, n);
      }
    }
  }

  /**
   A module that always answers 100 Continue: without preview that is the final response, and
   after a preview the client gets it twice.
   */
  lemma StrayContinue(
    m: Modifier, stamp: Stamp, header: Parsed, s: In,
    order: seq<Entity>, reorder: seq<Entity>, garbage: Garbage)
    requires m.loaded && forall v :: m.onPreview(v).status == CONTINUE && m.onModify(v).status == CONTINUE
    requires reorder != []
    ensures
      var done := Handled([m], stamp, header, s, true, order, reorder, garbage);
      var ieof := SectionsRead(order, header.fields.offsets, s, EMPTY, garbage).0.ieof;
      && (!Previews(header.fields) ==> Statuses(done) == [CONTINUE])
      && (Previews(header.fields) && !ieof ==> Statuses(done) == [CONTINUE, CONTINUE])
  {
    var done := Handled([m], stamp, header, s, true, order, reorder, garbage);
    ProtocolSafety([m], stamp, header, s, true, order, reorder, garbage);
    var p1 := SectionsRead(order, header.fields.offsets, s, EMPTY, garbage).0;
    var v1 := View(header.line, header.fields.(offsets := Updated(header.fields.offsets, p1)), p1);
    assert AsksToContinue([m], v1) by {
      assert [m][0].loaded && UndecidedBefore([m], v1, 0);
    }
    if done.shown.Some? {
      LastLoadedWins([m], done.shown.value, 0);
    }
    hide SectionsRead, Updated, LastRead, Modified, PreviewVerdict, AsksToContinue, EndsInContinue, Handled;
  }

  // ----- A whole request -----

  /**
   A request as a client sends it: the request line, the header lines, the header sections, the
   last entity with its body or the first part of it, and the second part, if one follows.
   */
  datatype Inquiry = Inquiry(
    top: string, lines: seq<string>, headers: seq<Part>, last: Entity, first: Coded, second: Option<Coded>)

  /** What the header says, line by line. */
  function Parse(q: Inquiry): Parsed {
    Parsed(LineParsed(UNKNOWN, q.top), LinesAttached(NO_FIELDS, q.lines))
  }

  function HeaderBlock(q: Inquiry): seq<string> {
    [q.top] + q.lines
  }

  /** The lines can be framed; in whatever spelling, they announce the sections that follow. */
  ghost predicate WellFormed(q: Inquiry) {
    && LegalHeaders(q.headers) && EndsRequest(q.last) && (IsBody(q.last) ==> Legal(q.first))
    && LegalLines(HeaderBlock(q)) && Recognised(HeaderBlock(q), 0)
    && (forall i :: 0 <= i < |HeaderBlock(q)| ==> Free(HeaderBlock(q)[i], "\r\n"))
    && Parse(q).fields.offsets == Announced(q.headers, q.last)
  }

  function SecondOctets(q: Inquiry): string {
    if q.second.Some? then Encoding(q.second.value) else ""
  }

  /** The octets behind the header block, and behind them the tail. */
  function MessageOctets(q: Inquiry, tail: string): string {
    Texts(q.headers) + (LastOctets(q.last, q.first) + (SecondOctets(q) + tail))
  }

  /** The octets of a request, and behind them the tail. */
  function OnWire(q: Inquiry, tail: string): string {
    Lines(HeaderBlock(q)) + (CRLF + MessageOctets(q, tail))
  }

  /**
   From the octets of the header block to the parsed header: the block is
   collected exactly, it is parsed line by line, and the stream is left at the
   first section.
   */
  lemma HeaderArrives(q: Inquiry, tail: string)
    requires WellFormed(q)
    ensures
      var (raw, s) := BlockRead(In(OnWire(q, tail), true), "");
      && s == In(MessageOctets(q, tail), true)
      && HeaderParsed(raw) == Parse(q)
      && Parse(q).fields.offsets == Announced(q.headers, q.last)
  {
    hide BlockRead, Lines, HeaderParsed, LinesAttached, LineParsed, Recognised, LegalLines, Announced, LegalHeaders,
      MessageOctets;
    HeaderFraming(HeaderBlock(q), MessageOctets(q, tail));
    assert HeaderBlock(q)[0] == q.top && forall i :: 0 <= i < |q.lines| ==> HeaderBlock(q)[i + 1] == q.lines[i];
    LinesParsed(q.top, q.lines);
  }

  lemma AnnouncedRestored(headers: seq<Part>, body: Entity)
    requires LegalHeaders(headers) && EndsRequest(body)
    ensures Restored(Announced(headers, body)) == Announced(headers, body)
  {
    var m := Announced(headers, body);
    AnnouncedPlaces(headers, body);
    assert body in Names(headers) + [body];
    assert m.At(body) >= 0;
    forall e: Entity
      ensures m.At(e) >= 0 || m.At(e) == -1
    {
    }
    RestoredAt(m, body);
    hide Restored, Announced;
    forall e: Entity
      ensures Restored(m).At(e) == m.At(e)
    {
      RestoredAt(m, e);
    }
    SameOffsets(Restored(m), m);
  }

  /** A printed header says what was printed, whatever the order and number of its fields. */
  lemma PrintedLines(q: Inquiry, r: RequestLine, fields: seq<Field>)
    requires LegalRequestLine(r) && LegalFields(fields)
    requires q.top == RequestText(r) && q.lines == FieldLines(fields)
    ensures Parse(q) == Parsed(r, FieldsAttached(NO_FIELDS, fields))
  {
    hide LinesAttached, LineParsed, FieldsAttached, FieldLines, RequestText;
    RequestLineRecovered(r);
    FieldsRecovered(NO_FIELDS, fields);
  }

  /**
   A printed request header, with distinct keys and the offsets printed by the library, is one
   spelling: its request line and fields are recovered, and it announces the sections.
   */
  lemma PrintedHeader(q: Inquiry, r: RequestLine, fields: seq<Field>, k: nat, listed: seq<Entity>)
    requires LegalHeaders(q.headers) && EndsRequest(q.last)
    requires LegalRequestLine(r) && LegalFields(fields) && DistinctKeys(fields)
    requires k < |fields| && fields[k] == EncapsulatedField(listed, Announced(q.headers, q.last))
    requires Sorts(listed, Announced(q.headers, q.last))
    requires q.top == RequestText(r) && q.lines == FieldLines(fields)
    ensures Parse(q) == Parsed(r, FieldsAttached(NO_FIELDS, fields))
    ensures Parse(q).fields.offsets == Announced(q.headers, q.last)
    ensures forall i :: 0 <= i < |HeaderBlock(q)| ==> Free(HeaderBlock(q)[i], "\r\n")
  {
    hide LinesAttached, LineParsed, FieldsAttached, FieldLines, RequestText, Announced, EncapsulatedText, Restored,
      Sorts, LegalField, LegalHeaders, EndsRequest;
    RequestLineRecovered(r);
    FieldsRecovered(NO_FIELDS, fields);
    OffsetsRecovered(fields, k, listed, Announced(q.headers, q.last));
    AnnouncedRestored(q.headers, q.last);
  }

  /** What is seen of a request after the first read: sections and body exactly as sent. */
  function FirstView(q: Inquiry): View
    requires LegalHeaders(q.headers)
  {
    var p := Carried(q.headers, q.last, q.first);
    View(Parse(q).line, Parse(q).fields.(offsets := Updated(Announced(q.headers, q.last), p)), p)
  }

  /** There is no second part, or the second read finds it: the body is still the last entity then. */
  predicate RestRead(q: Inquiry) {
    q.second.None? || StaysLast(q.headers, q.last, Data(q.first))
  }

  /** And after the second read: the body put together from both parts, unless the rest is not read. */
  function FullView(q: Inquiry): View
    requires LegalHeaders(q.headers)
  {
    var v := FirstView(q);
    var p :=
      if q.second.Some? && RestRead(q)
      then Received(q.headers, q.last, Data(q.first) + Data(q.second.value), Ieof(q.second.value))
      else v.payload;
    View(Parse(q).line, v.fields.(offsets := Updated(v.fields.offsets, p)), p)
  }

  /** What `process` leaves on the stream. */
  function Unread(q: Inquiry, tail: string): string {
    if RestRead(q) then tail else SecondOctets(q) + tail
  }

  lemma FirstViewFacts(q: Inquiry)
    requires LegalHeaders(q.headers)
    ensures PreviewSize(FirstView(q).fields) >= 0 <==> Previews(Parse(q).fields)
    ensures FirstView(q).line == Parse(q).line
    ensures FirstView(q).payload.ieof == (IsBody(q.last) && Ieof(q.first))
  {
    hide LinesAttached, LineParsed, Updated, Announced, Assembled, WithSection, Data, Atoi, Texts;
    HeadersAssembled(q.headers);
    PreviewsRead(Parse(q).fields);
    hide Previews, Parse;
  }

  lemma NoSecond(q: Inquiry, tail: string)
    requires q.second == None
    ensures SecondOctets(q) + tail == tail
  {
    assert "" + tail == tail;
  }

  /** The first read of `process`. */
  lemma FirstSeen(q: Inquiry, tail: string, order: seq<Entity>, garbage: Garbage)
    requires WellFormed(q) && Sorts(order, Announced(q.headers, q.last))
    ensures SectionsRead(order, Announced(q.headers, q.last), In(MessageOctets(q, tail), true), EMPTY, garbage) ==
            (FirstView(q).payload, In(SecondOctets(q) + tail, true))
  {
    hide SectionsRead, Announced, Recognised, LegalLines, Texts, LastOctets, Carried, Encoding;
    FirstRead(q.headers, q.last, q.first, order, SecondOctets(q) + tail, garbage);
  }

  /** Header block and first read together: `process` goes on from the request as it was sent. */
  lemma Arrival(
    q: Inquiry, tail: string, handlers: seq<Modifier>, stamp: Stamp, writable: bool,
    order: seq<Entity>, reorder: seq<Entity>, garbage: Garbage)
    requires WellFormed(q) && Sorts(order, Announced(q.headers, q.last)) && reorder != []
    ensures
      var (raw, s) := BlockRead(In(OnWire(q, tail), true), "");
      Handled(handlers, stamp, HeaderParsed(raw), s, writable, order, reorder, garbage) ==
      Concluded(handlers, stamp, FirstView(q), In(SecondOctets(q) + tail, true), writable, reorder, garbage)
  {
    assert LegalHeaders(q.headers);
    hide BlockRead, HeaderParsed, LinesAttached, LineParsed, Announced, WellFormed, SectionsRead, OnWire,
      MessageOctets, Updated, Carried, Concluded, SecondOctets;
    HeaderArrives(q, tail);
    FirstSeen(q, tail, order, garbage);
  }

  /**
   A request without preview, from its octets to the modifiers: they are shown
   the request line, the header sections and the body exactly as sent, nothing is
   sent before the final response, and the stream is left at the end of the
   request.
   */
  lemma WholeRequest(
    q: Inquiry, tail: string, handlers: seq<Modifier>, stamp: Stamp, writable: bool,
    order: seq<Entity>, reorder: seq<Entity>, garbage: Garbage)
    requires WellFormed(q) && q.second == None && !Previews(Parse(q).fields)
    requires Sorts(order, Announced(q.headers, q.last)) && reorder != []
    ensures
      var (raw, s) := BlockRead(In(OnWire(q, tail), true), "");
      Handled(handlers, stamp, HeaderParsed(raw), s, writable, order, reorder, garbage) ==
      Processed(Finish(Modified(handlers, FirstView(q)), stamp), None, Some(FirstView(q)), In(tail, true))
  {
    hide BlockRead, HeaderParsed, LinesAttached, LineParsed, OnWire, Modified, Handled, PreviewSize, Previews, Finish,
      FirstView, Announced, SecondOctets, PreviewVerdict, Sorts, Recognised, LegalLines, LegalHeaders, HeaderBlock;
    Arrival(q, tail, handlers, stamp, writable, order, reorder, garbage);
    FirstViewFacts(q);
    NoSecond(q, tail);
  }

  /** What the preview phase makes of the request. */
  function Asked(handlers: seq<Modifier>, q: Inquiry): Verdict
    requires LegalHeaders(q.headers)
  {
    PreviewVerdict(handlers, FirstView(q), None)
  }

  /** A request with a preview that is not all of the body, and the second part; or without a body. */
  ghost predicate Continuable(q: Inquiry) {
    && WellFormed(q)
    && Previews(Parse(q).fields)
    && if !IsBody(q.last) then q.second == None
       else
         && q.second.Some? && !Ieof(q.first) && Legal(q.second.value)
         && |Texts(q.headers)| + |Data(q.first)| < 0x8000_0000
  }

  /** How the second sort must treat equal offsets, if the first part is empty. */
  ghost predicate TiesKept(q: Inquiry, reorder: seq<Entity>)
    requires LegalHeaders(q.headers)
  {
    q.second.Some? && Data(q.first) == "" ==> TiesInKeyOrder(reorder, FirstView(q).fields.offsets)
  }

  /** The second read of `process`. */
  lemma SecondSeen(q: Inquiry, tail: string, order: seq<Entity>, reorder: seq<Entity>, garbage: Garbage)
    requires Continuable(q) && Sorts(order, Announced(q.headers, q.last))
    requires Sorts(reorder, FirstView(q).fields.offsets) && TiesKept(q, reorder)
    ensures reorder != []
    ensures
      LastRead(reorder[|reorder| - 1], In(SecondOctets(q) + tail, true), FirstView(q).payload, garbage) ==
      (FullView(q).payload, In(Unread(q, tail), true))
  {
    hide LastRead, WellFormed, Unread, FullView, FirstView, TiesKept, Continuable;
    if IsBody(q.last) {
      SecondSeenBody(q, tail, order, reorder, garbage);
    } else {
      SecondSeenNone(q, tail, reorder, garbage);
    }
  }

  lemma WellFormedHeaders(q: Inquiry)
    requires WellFormed(q)
    ensures LegalHeaders(q.headers) && EndsRequest(q.last) && (IsBody(q.last) ==> Legal(q.first))
  {
  }

  lemma SecondSeenBody(q: Inquiry, tail: string, order: seq<Entity>, reorder: seq<Entity>, garbage: Garbage)
    requires Continuable(q) && IsBody(q.last) && Sorts(order, Announced(q.headers, q.last))
    requires Sorts(reorder, FirstView(q).fields.offsets) && TiesKept(q, reorder)
    ensures reorder != []
    ensures
      LastRead(reorder[|reorder| - 1], In(SecondOctets(q) + tail, true), FirstView(q).payload, garbage) ==
      (FullView(q).payload, In(Unread(q, tail), true))
  {
    hide LastRead, WellFormed, Updated, Data, Encoding, Texts, StaysLast, Announced, Recomputed, Received, Parse,
      Legal;
    WellFormedHeaders(q);
    FirstViewOfBody(q);
    hide FirstView;
    Conversation(q.headers, q.last, q.first, q.second.value, order, reorder, tail, garbage);
  }

  lemma FirstViewOfBody(q: Inquiry)
    requires LegalHeaders(q.headers) && IsBody(q.last) && !Ieof(q.first)
    ensures FirstView(q).payload == Received(q.headers, q.last, Data(q.first), false)
    ensures FirstView(q).fields.offsets == Recomputed(q.headers, q.last, Data(q.first), false)
  {
    hide Updated, Received, Announced, Parse, Data;
  }

  lemma SecondSeenNone(q: Inquiry, tail: string, reorder: seq<Entity>, garbage: Garbage)
    requires Continuable(q) && !IsBody(q.last) && Sorts(reorder, FirstView(q).fields.offsets)
    ensures reorder != []
    ensures
      LastRead(reorder[|reorder| - 1], In(SecondOctets(q) + tail, true), FirstView(q).payload, garbage) ==
      (FullView(q).payload, In(Unread(q, tail), true))
  {
    hide FirstView, WellFormed, StaysLast, Updated, SecondOctets;
    WellFormedHeaders(q);
    NoBodyLast(q, reorder);
    NoSecond(q, tail);
  }

  /** Without a body the second read finds none. */
  lemma NoBodyLast(q: Inquiry, reorder: seq<Entity>)
    requires LegalHeaders(q.headers) && q.last == NullBody && Sorts(reorder, FirstView(q).fields.offsets)
    ensures reorder != [] && !IsBody(reorder[|reorder| - 1])
  {
    hide Texts, LinesAttached, LineParsed, LegalHeaders, Assembled;
    var m, p := Announced(q.headers, NullBody), Assembled(EMPTY, q.headers);
    HeadersAssembled(q.headers);
    NoBodyAnnounced(q.headers);
    var updated := Updated(m, p);
    assert ToWord(0) == 0 == ToInt32(0);
    var first := if p.reqHeader != "" then ReqHdr else if p.resHeader != "" then ResHdr else NullBody;
    assert updated.At(first) == 0;
    assert updated.At(ReqBody) == updated.At(ResBody) == -1;
    hide Announced, Updated;
    assert first in reorder;
    var i :| 0 <= i < |reorder| && reorder[i] == first;
    assert updated.At(reorder[i]) <= updated.At(reorder[|reorder| - 1]);
  }

  lemma NoBodyAnnounced(headers: seq<Part>)
    requires LegalHeaders(headers)
    ensures var m := Announced(headers, NullBody); m.At(ReqBody) == m.At(ResBody) == -1
  {
    hide Texts;
  }

  /**
   A preview request whose modifier asks to continue: the client gets a 100
   Continue, and the modify phase is shown the header sections as sent and the
   body put together from both parts - for every cut of the parts into chunks,
   and for every cut of the body into the two parts after which it stays the last
   entity.  After any other cut the modify phase is shown the first part only
   (`RestLost`), and the second is left on the stream.
   */
  lemma WholePreview(
    q: Inquiry, tail: string, handlers: seq<Modifier>, stamp: Stamp,
    order: seq<Entity>, reorder: seq<Entity>, garbage: Garbage)
    requires Continuable(q) && Asked(handlers, q).Continued?
    requires Sorts(order, Announced(q.headers, q.last))
    requires Sorts(reorder, FirstView(q).fields.offsets) && TiesKept(q, reorder)
    ensures
      var (raw, s) := BlockRead(In(OnWire(q, tail), true), "");
      && reorder != []
      && Handled(handlers, stamp, HeaderParsed(raw), s, true, order, reorder, garbage) ==
         Processed(Finish(Modified(handlers, FullView(q)), stamp), Some(Asked(handlers, q).response100),
                   Some(FullView(q)), In(Unread(q, tail), true))
  {
    hide BlockRead, HeaderParsed, LinesAttached, LineParsed, OnWire, Modified, Handled, PreviewSize, Previews, Finish,
      FirstView, Announced, SecondOctets, PreviewVerdict, Sorts, Recognised, LegalLines, LegalHeaders, HeaderBlock,
      Updated, LastRead, Carried, Received, Data, Texts, StaysLast, TiesKept, Encoding, RestRead, Unread;
    SecondSeen(q, tail, order, reorder, garbage);
    Arrival(q, tail, handlers, stamp, true, order, reorder, garbage);
    FirstViewFacts(q);
  }

  /** When the rest is not read, the modify phase is shown just what the preview was. */
  lemma RestLost(q: Inquiry)
    requires LegalHeaders(q.headers) && !RestRead(q)
    ensures FullView(q) == FirstView(q)
  {
    hide Announced, Carried, LinesAttached, LineParsed, StaysLast;
    UpdatedTwice(Announced(q.headers, q.last), Carried(q.headers, q.last, q.first));
  }

  lemma UpdatedTwice(m: Offsets, p: Payload)
    ensures Updated(Updated(m, p), p) == Updated(m, p)
  {
    hide ToWord, ToInt32;
  }

  /** A preview request after which the client sends no more: the answer of the preview, or an error. */
  lemma PreviewOnly(
    q: Inquiry, tail: string, handlers: seq<Modifier>, stamp: Stamp, writable: bool,
    order: seq<Entity>, reorder: seq<Entity>, garbage: Garbage)
    requires WellFormed(q) && q.second == None && Previews(Parse(q).fields)
    requires Asked(handlers, q).Continued? ==> IsBody(q.last) && Ieof(q.first)
    requires Sorts(order, Announced(q.headers, q.last)) && reorder != []
    ensures
      var (raw, s) := BlockRead(In(OnWire(q, tail), true), "");
      Handled(handlers, stamp, HeaderParsed(raw), s, writable, order, reorder, garbage) ==
      match Asked(handlers, q)
      case Answered(Some(r)) => Processed(r, None, None, In(tail, true))
      case Answered(None) => Processed(ServerError(stamp), None, Some(FirstView(q)), In(tail, true))
      case Continued(_) => Processed(ServerError(stamp), None, None, In(tail, true))
  {
    hide BlockRead, HeaderParsed, LinesAttached, LineParsed, OnWire, Modified, Handled, PreviewSize, Previews,
      FirstView, Announced, SecondOctets, PreviewVerdict, Sorts, Recognised, LegalLines, LegalHeaders, HeaderBlock;
    Arrival(q, tail, handlers, stamp, writable, order, reorder, garbage);
    FirstViewFacts(q);
    NoSecond(q, tail);
    PreviewOutcome(handlers, FirstView(q));
    NullWhenNoneLoaded(handlers, FirstView(q));
  }
}
