/**
 The preview conversation (section 4.5 of RFC 3507): the client sends the header
 sections and a first part of the body; after a 100 Continue it sends the rest.

 Between the two reads the library stores the payload and recomputes the
 offsets, and the second read trusts the recomputed order to find the body.
 These lemmas say exactly when it does.
 */
module Preview {
  import opened Octets
  import opened Wire
  import opened Chunked
  import opened Encapsulated
  import opened EncapsulatedLaws
  import opened Message
  import opened MessageLaws

  /** The header sections of a request, as sent: there are only two kinds, and none is empty. */
  predicate LegalHeaders(headers: seq<Part>) {
    && |headers| <= 2
    && (|headers| == 2 ==> headers[0].entity != headers[1].entity)
    && forall i :: 0 <= i < |headers| ==>
         (headers[i].entity == ReqHdr || headers[i].entity == ResHdr) && headers[i].text != ""
  }

  /** The offsets the client announces: the headers back to back, then the body. */
  function Announced(headers: seq<Part>, body: Entity): Offsets
    requires LegalHeaders(headers)
  {
    var m := FRESH.With(body, |Texts(headers)|);
    if headers == [] then m
    else if |headers| == 1 then m.With(headers[0].entity, 0)
    else m.With(headers[0].entity, 0).With(headers[1].entity, |headers[0].text|)
  }

  /** The payload made of the header sections and one body. */
  function Received(headers: seq<Part>, body: Entity, data: string, ieof: bool): Payload {
    WithSection(Assembled(EMPTY, headers), body, data).(ieof := ieof)
  }

  /** What a request can end with: a body, or the mark that there is none. */
  predicate EndsRequest(e: Entity) {
    IsBody(e) || e == NullBody
  }

  /** The octets of the last entity. */
  function LastOctets(last: Entity, data: Coded): string {
    if IsBody(last) then Encoding(data) else ""
  }

  /** The payload of a request with these headers and this last entity. */
  function Carried(headers: seq<Part>, last: Entity, data: Coded): Payload {
    if IsBody(last) then Received(headers, last, Data(data), Ieof(data)) else Assembled(EMPTY, headers)
  }

  // ----- The first read -----

  lemma AnnouncedPlaces(headers: seq<Part>, body: Entity)
    requires LegalHeaders(headers) && EndsRequest(body)
    ensures var m := Announced(headers, body);
      && Places(m, headers, 0, body)
      && Increasing(Names(headers) + [body], m)
      && forall e: Entity :: e in Names(headers) + [body] <==> m.At(e) >= 0
  {
    if |headers| == 2 {
      TwoParts(Announced(headers, body), headers[0], headers[1], body);
      assert headers == [headers[0], headers[1]];
    } else if |headers| == 1 {
      assert headers[1..] == [];
      assert Texts(headers) == headers[0].text + "";
    }
  }

  /** The first read takes the header sections as sent and the first part of the body, if any, and no more. */
  lemma FirstRead(headers: seq<Part>, body: Entity, first: Coded, order: seq<Entity>, tail: string, garbage: Garbage)
    requires LegalHeaders(headers) && EndsRequest(body) && (IsBody(body) ==> Legal(first))
    requires Sorts(order, Announced(headers, body))
    ensures
      var stream := Texts(headers) + (LastOctets(body, first) + tail);
      SectionsRead(order, Announced(headers, body), In(stream, true), EMPTY, garbage) ==
      (Carried(headers, body, first), In(tail, true))
  {
    hide SectionsRead, Announced, Assembled, Texts, Encoding, Places, Names, PayloadRead, Present;
    AnnouncedPlaces(headers, body);
    MessageRead(order, Announced(headers, body), headers, body, LastOctets(body, first) + tail, garbage);
    HeadersAssembled(headers);
    if IsBody(body) {
      DecodesEveryPartition(first, "", tail, garbage);
      assert "" + Data(first) == Data(first);
    } else {
      assert "" + tail == tail;
    }
  }

  /** Storing the headers fills the header sections with all their text, and nothing else. */
  lemma HeadersAssembled(headers: seq<Part>)
    requires LegalHeaders(headers)
    ensures var p := Assembled(EMPTY, headers);
      && p == Payload(p.reqHeader, "", p.resHeader, "", false)
      && |Texts(headers)| == |p.reqHeader| + |p.resHeader|
      && (p.reqHeader != "" <==> exists i :: 0 <= i < |headers| && headers[i].entity == ReqHdr)
      && (p.resHeader != "" <==> exists i :: 0 <= i < |headers| && headers[i].entity == ResHdr)
  {
    if |headers| == 2 {
      TwoParts(FRESH, headers[0], headers[1], NullBody);
      assert headers == [headers[0], headers[1]];
      assert headers[0].entity == ReqHdr || headers[1].entity == ReqHdr;
      assert headers[0].entity == ResHdr || headers[1].entity == ResHdr;
    } else if |headers| == 1 {
      assert headers[1..] == [];
      assert Texts(headers) == headers[0].text + "";
    }
  }

  // ----- The recomputed offsets -----

  /** The offsets after the first read has stored its payload. */
  function Recomputed(headers: seq<Part>, body: Entity, data: string, ieof: bool): Offsets
    requires LegalHeaders(headers)
  {
    Updated(Announced(headers, body), Received(headers, body, data, ieof))
  }

  /**
   The same in terms of three lengths: request header, response header, and the
   part of the body read so far.
   */
  function RecomputedAt(req: nat, res: nat, data: nat, body: Entity, e: Entity): int
    requires IsBody(body)
  {
    var beforeRes := if body == ReqBody then data else 0;
    var lastStart :=
      if body == ResBody && data > 0 then req + res
      else if res > 0 then req + beforeRes
      else if body == ReqBody && data > 0 then req
      else 0;
    match e
    case NullBody => if lastStart == 0 then req + res + data else -1
    case OptBody => -1
    case ReqHdr => if req > 0 then 0 else -1
    case ResHdr => if res > 0 then req + beforeRes else -1
    case _ =>
      if e != body then -1
      else if data > 0 && body == ReqBody then req
      else req + res
  }

  lemma RecomputedOffsets(headers: seq<Part>, body: Entity, data: string, ieof: bool, e: Entity)
    requires LegalHeaders(headers) && IsBody(body) && |Texts(headers)| + |data| < 0x8000_0000
    ensures var p := Assembled(EMPTY, headers);
      Recomputed(headers, body, data, ieof).At(e) == RecomputedAt(|p.reqHeader|, |p.resHeader|, |data|, body, e)
  {
    HeadersAssembled(headers);
    if Section(Assembled(EMPTY, headers), e) == "" {
      AnnouncedKept(headers, body, e);
    }
    hide Assembled, Texts, Announced;
    var p := Received(headers, body, data, ieof);
    assert Total(p) == |Texts(headers)| + |data|;
    UpdatedNoWrap(Announced(headers, body), p, e);
    hide Updated;
  }

  lemma UpdatedNoWrap(m: Offsets, p: Payload, e: Entity)
    requires Total(p) < 0x8000_0000
    ensures Updated(m, p).At(e) ==
            if Section(p, e) != "" then Before(p, e)
            else if e == NullBody && LastStart(p) == 0 then Total(p)
            else m.At(e)
  {
    assert ToWord(LastStart(p)) == LastStart(p);
  }

  /** The announced offsets of entities whose section is still empty after the first read. */
  lemma AnnouncedKept(headers: seq<Part>, body: Entity, e: Entity)
    requires LegalHeaders(headers) && IsBody(body)
    requires Section(Assembled(EMPTY, headers), e) == ""
    ensures Announced(headers, body).At(e) == if e == body then |Texts(headers)| else -1
  {
    HeadersAssembled(headers);
    hide Assembled, Texts;
  }

  /**
   The body stays the last entity: nothing of it has been read, or there is a
   header section and no response header behind a request body.
   */
  predicate StaysLast(headers: seq<Part>, body: Entity, data: string) {
    || data == ""
    || (headers != [] && !(body == ReqBody && exists i :: 0 <= i < |headers| && headers[i].entity == ResHdr))
  }

  lemma LastIs(order: seq<Entity>, m: Offsets, e: Entity)
    requires Sorts(order, m)
    requires forall f: Entity :: f != e ==>
      m.At(f) < m.At(e) || (m.At(f) == m.At(e) && KeyRank(f) < KeyRank(e) && TiesInKeyOrder(order, m))
    ensures order != [] && order[|order| - 1] == e
  {
    assert e in order;
    var i :| 0 <= i < |order| && order[i] == e;
    var last := order[|order| - 1];
    assert m.At(e) <= m.At(last);
  }

  /** Which entity the second read finds last. */
  lemma LastAfterFirstRead(headers: seq<Part>, body: Entity, data: string, ieof: bool, order: seq<Entity>)
    requires LegalHeaders(headers) && IsBody(body) && |Texts(headers)| + |data| < 0x8000_0000
    requires Sorts(order, Recomputed(headers, body, data, ieof))
    requires data == "" ==> TiesInKeyOrder(order, Recomputed(headers, body, data, ieof))
    ensures order != []
    ensures if StaysLast(headers, body, data) then order[|order| - 1] == body else !IsBody(order[|order| - 1])
  {
    var m := Recomputed(headers, body, data, ieof);
    var p := Assembled(EMPTY, headers);
    HeadersAssembled(headers);
    forall e: Entity
      ensures m.At(e) == RecomputedAt(|p.reqHeader|, |p.resHeader|, |data|, body, e)
    {
      RecomputedOffsets(headers, body, data, ieof, e);
    }
    hide Recomputed, Assembled, Texts;
    if StaysLast(headers, body, data) {
      LastIs(order, m, body);
    } else if headers == [] {
      LastIs(order, m, NullBody);
    } else {
      LastIs(order, m, ResHdr);
    }
  }

  /**
   When the first part is empty, the sort may put something else behind the
   body exactly when there is at most one header section: null-body then gets
   the offset of the body, and only the order of ties keeps the body last.
   */
  lemma TieMatters(headers: seq<Part>, body: Entity)
    requires LegalHeaders(headers) && IsBody(body) && |Texts(headers)| < 0x8000_0000
    ensures (exists order: seq<Entity> ::
               Sorts(order, Recomputed(headers, body, "", false)) && order != [] && order[|order| - 1] != body)
            <==> |headers| <= 1
  {
    hide Recomputed, Assembled, Texts, Sorts;
    var m := Recomputed(headers, body, "", false);
    var p := Assembled(EMPTY, headers);
    HeadersAssembled(headers);
    forall e: Entity
      ensures m.At(e) == RecomputedAt(|p.reqHeader|, |p.resHeader|, 0, body, e)
    {
      RecomputedOffsets(headers, body, "", false, e);
    }
    if |headers| <= 1 {
      var h := if headers == [] then ReqHdr else headers[0].entity;
      NullBodyLastSorts(h, body, |p.reqHeader|, |p.resHeader|, m);
    } else {
      forall order | Sorts(order, m)
        ensures order != [] && order[|order| - 1] == body
      {
        LastIs(order, m, body);
      }
    }
  }

  /** A possible outcome of the sort with null-body at the end. */
  function NullBodyLast(h: Entity, body: Entity): seq<Entity> {
    [OptBody, if body == ReqBody then ResBody else ReqBody, if h == ReqHdr then ResHdr else ReqHdr, h, body, NullBody]
  }

  lemma NullBodyLastSorts(h: Entity, body: Entity, req: nat, res: nat, m: Offsets)
    requires (h == ReqHdr || h == ResHdr) && IsBody(body)
    requires h == ReqHdr ==> res == 0
    requires h == ResHdr ==> req == 0
    requires forall e: Entity :: m.At(e) == RecomputedAt(req, res, 0, body, e)
    ensures Sorts(NullBodyLast(h, body), m)
    ensures NullBodyLast(h, body)[5] == NullBody
  {
    var order := NullBodyLast(h, body);
    forall e: Entity
      ensures e in order
    {
      var i :=
        if e == OptBody then 0
        else if e == NullBody then 5
        else if e == body then 4
        else if e == h then 3
        else if IsBody(e) then 1
        else 2;
      assert order[i] == e;
    }
    assert m.At(order[0]) == m.At(order[1]) == m.At(order[2]) == -1;
    assert -1 <= m.At(order[3]) <= m.At(order[4]) == m.At(order[5]);
  }

  // ----- The conversation -----

  /**
   For all header sections, all first and second parts and all their partitions
   into chunks: the first read leaves the second part untouched on the stream;
   the second read sees the header sections as sent, and it delivers the whole
   body exactly when the body stayed the last entity or there was nothing more
   to read.  How the sort orders ties matters only when the first part is empty.
   */
  lemma Conversation(
    headers: seq<Part>, body: Entity, first: Coded, second: Coded,
    order: seq<Entity>, reorder: seq<Entity>, tail: string, garbage: Garbage)
    requires LegalHeaders(headers) && IsBody(body)
    requires Legal(first) && !Ieof(first) && Legal(second)
    requires |Texts(headers)| + |Data(first)| < 0x8000_0000
    requires Sorts(order, Announced(headers, body))
    requires Sorts(reorder, Recomputed(headers, body, Data(first), false))
    requires Data(first) == "" ==> TiesInKeyOrder(reorder, Recomputed(headers, body, Data(first), false))
    ensures
      var stream := Texts(headers) + (Encoding(first) + (Encoding(second) + tail));
      var (p1, s1) := SectionsRead(order, Announced(headers, body), In(stream, true), EMPTY, garbage);
      && p1 == Received(headers, body, Data(first), false)
      && s1 == In(Encoding(second) + tail, true)
      && Updated(Announced(headers, body), p1) == Recomputed(headers, body, Data(first), false)
      && reorder != []
      && var (p2, s2) := LastRead(reorder[|reorder| - 1], s1, p1, garbage);
         && p2.reqHeader == p1.reqHeader && p2.resHeader == p1.resHeader
         && (if StaysLast(headers, body, Data(first))
             then p2 == Received(headers, body, Data(first) + Data(second), Ieof(second)) && s2 == In(tail, true)
             else p2 == p1 && s2 == s1)
         && (Section(p2, body) == Data(first) + Data(second) <==>
             StaysLast(headers, body, Data(first)) || Data(second) == "")
  {
    hide SectionsRead, Announced, Assembled, Texts, Encoding, PayloadRead, Data, StaysLast;
    FirstRead(headers, body, first, order, Encoding(second) + tail, garbage);
    LastAfterFirstRead(headers, body, Data(first), false, reorder);
    DecodesEveryPartition(second, Data(first), tail, garbage);
    if Data(second) != "" {
      assert |Data(first) + Data(second)| > |Data(first)|;
    } else {
      assert Data(first) + Data(second) == Data(first);
    }
  }

  /**
   A request body announced with no header section: after a preview of "P", the
   recomputed order ends in null-body, and the rest of the body stays unread.
   */
  lemma LostRestExample(reorder: seq<Entity>, rest: string, garbage: Garbage)
    requires Sorts(reorder, Recomputed([], ReqBody, "P", false))
    ensures reorder != []
    ensures
      var p := Received([], ReqBody, "P", false);
      LastRead(reorder[|reorder| - 1], In(rest, true), p, garbage) == (p, In(rest, true))
  {
    LastAfterFirstRead([], ReqBody, "P", false, reorder);
  }
}
