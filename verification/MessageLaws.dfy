/**
 Laws of reading and sending encapsulated messages: sections are the stream
 slices between adjacent offsets, and which payloads survive being sent and
 read again.
 */
module MessageLaws {
  import opened Octets
  import opened Wire
  import opened Chunked
  import opened Encapsulated
  import opened EncapsulatedLaws
  import opened Message

  /** A section as it stands on the wire. */
  datatype Part = Part(entity: Entity, text: string)

  function Names(parts: seq<Part>): (names: seq<Entity>)
    ensures |names| == |parts| && forall i :: 0 <= i < |parts| ==> names[i] == parts[i].entity
  {
    if parts == [] then [] else [parts[0].entity] + Names(parts[1..])
  }

  function Texts(parts: seq<Part>): string {
    if parts == [] then "" else parts[0].text + Texts(parts[1..])
  }

  /** The payload after storing each part in its section. */
  function Assembled(p: Payload, parts: seq<Part>): Payload
    decreases |parts|
  {
    if parts == [] then p else Assembled(WithSection(p, parts[0].entity, parts[0].text), parts[1..])
  }

  /** `m` places the parts back to back from `at` on, and `last` right behind them. */
  ghost predicate Places(m: Offsets, parts: seq<Part>, at: nat, last: Entity) {
    if parts == [] then m.At(last) == at
    else
      && m.At(parts[0].entity) == at
      && parts[0].text != ""
      && HasSection(parts[0].entity)
      && Places(m, parts[1..], at + |parts[0].text|, last)
  }

  // ----- Reading -----

  /** Absent entities, which the sort puts first, are passed over. */
  lemma {:induction false} AbsentSkipped(order: seq<Entity>, m: Offsets, k: nat, s: In, p: Payload, garbage: Garbage)
    requires k <= |order| && forall i :: 0 <= i < k ==> m.At(order[i]) < 0
    ensures SectionsRead(order, m, s, p, garbage) == SectionsRead(order[k..], m, s, p, garbage)
    decreases k
  {
    if k == 0 {
      assert order[0..] == order;
    } else {
      AbsentSkipped(order[1..], m, k - 1, s, p, garbage);
      assert order[1..][k - 1..] == order[k..];
    }
  }

  lemma {:induction false} PartsRead(
    parts: seq<Part>, m: Offsets, at: nat, last: Entity, tail: string, p: Payload, garbage: Garbage)
    requires Places(m, parts, at, last)
    ensures SectionsRead(Names(parts) + [last], m, In(Texts(parts) + tail, true), p, garbage) ==
            LastRead(last, In(tail, true), Assembled(p, parts), garbage)
    decreases |parts|
  {
    hide LastRead;
    var order := Names(parts) + [last];
    if parts == [] {
      assert order == [last];
      assert Texts(parts) + tail == tail;
    } else {
      var first, rest := parts[0], parts[1..];
      assert order[1..] == Names(rest) + [last];
      Associative(first.text, Texts(rest), tail);
      DataReadExact(first.text, Texts(rest) + tail);
      assert m.At(order[1]) == at + |first.text|;
      PartsRead(rest, m, at + |first.text|, last, tail, WithSection(p, first.entity, first.text), garbage);
    }
  }

  /** `read_req_data` on a stream that carries the parts the offsets announce. */
  lemma MessageRead(order: seq<Entity>, m: Offsets, parts: seq<Part>, last: Entity, tail: string, garbage: Garbage)
    requires Sorts(order, m)
    requires Places(m, parts, 0, last)
    requires Increasing(Names(parts) + [last], m)
    requires forall e: Entity :: e in Names(parts) + [last] <==> m.At(e) >= 0
    ensures SectionsRead(order, m, In(Texts(parts) + tail, true), EMPTY, garbage) ==
            LastRead(last, In(tail, true), Assembled(EMPTY, parts), garbage)
    ensures Present(order, m) == Names(parts) + [last]
  {
    hide SectionsRead, LastRead, Assembled, Present, Names, Texts;
    SortedRead(order, m, Names(parts) + [last], In(Texts(parts) + tail, true), garbage);
    PartsRead(parts, m, 0, last, tail, EMPTY, garbage);
  }

  /** Without ties, the sort's list is read like the increasing list of what is present. */
  lemma SortedRead(order: seq<Entity>, m: Offsets, list: seq<Entity>, s: In, garbage: Garbage)
    requires Sorts(order, m) && Increasing(list, m)
    requires forall e: Entity :: e in list <==> m.At(e) >= 0
    ensures SectionsRead(order, m, s, EMPTY, garbage) == SectionsRead(list, m, s, EMPTY, garbage)
    ensures Present(order, m) == list
  {
    hide SectionsRead, Present;
    SortDetermines(order, m, list);
    assert Ordered(order, m);
    PresentAtEnd(order, m);
    AbsentSkipped(order, m, |order| - |list|, s, EMPTY, garbage);
  }

  // ----- Which entities are read -----

  /** As the last entity, only a body is read, and only its section and the ieof flag change. */
  lemma LastReadCases(e: Entity, s: In, p: Payload, garbage: Garbage)
    ensures e == ReqBody ==>
      var (body, ieof, left) := PayloadRead(s, p.reqBody, garbage);
      LastRead(e, s, p, garbage) == (Payload(p.reqHeader, body, p.resHeader, p.resBody, ieof), left)
    ensures e == ResBody ==>
      var (body, ieof, left) := PayloadRead(s, p.resBody, garbage);
      LastRead(e, s, p, garbage) == (Payload(p.reqHeader, p.reqBody, p.resHeader, body, ieof), left)
    ensures e != ReqBody && e != ResBody ==> LastRead(e, s, p, garbage) == (p, s)
  {
  }

  /** Before the last, null-body and opt-body are passed over, and so is a section without room. */
  lemma SectionReadCases(e: Entity, length: int, s: In, p: Payload)
    ensures
      var (data, left) := DataRead(s, length);
      var read := SectionRead(e, length, s, p);
      if length <= 0 || e == NullBody || e == OptBody then read == (p, s)
      else if e == ReqHdr then read == (Payload(data, p.reqBody, p.resHeader, p.resBody, p.ieof), left)
      else if e == ReqBody then read == (Payload(p.reqHeader, data, p.resHeader, p.resBody, p.ieof), left)
      else if e == ResHdr then read == (Payload(p.reqHeader, p.reqBody, data, p.resBody, p.ieof), left)
      else read == (Payload(p.reqHeader, p.reqBody, p.resHeader, data, p.ieof), left)
  {
    hide DataRead;
  }

  // ----- Slicing -----

  /** An Encapsulated list: offsets rise strictly from 0, and only the last entity may have no section. */
  ghost predicate WellListed(list: seq<Entity>, m: Offsets) {
    && list != [] && m.At(list[0]) == 0
    && Increasing(list, m)
    && (forall e: Entity :: e in list <==> m.At(e) >= 0)
    && (forall i :: 0 <= i < |list| - 1 ==> HasSection(list[i]))
  }

  ghost predicate Fits(list: seq<Entity>, m: Offsets, s: string) {
    && (forall k :: 0 <= k < |list| ==> 0 <= m.At(list[k]) <= |s|)
    && (forall k :: 0 < k < |list| ==> m.At(list[k - 1]) < m.At(list[k]))
  }

  /** The stream between an offset and the next. */
  function Slice(list: seq<Entity>, m: Offsets, s: string, k: nat): Part
    requires Fits(list, m, s) && 0 < k < |list|
  {
    Part(list[k - 1], s[m.At(list[k - 1])..m.At(list[k])])
  }

  /** All the offsets cut out of the stream from the `i`-th entity on. */
  function Slices(list: seq<Entity>, m: Offsets, s: string, i: nat): (parts: seq<Part>)
    requires Fits(list, m, s) && 0 < i <= |list|
    ensures |parts| == |list| - i
    decreases |list| - i
  {
    if i == |list| then [] else [Slice(list, m, s, i)] + Slices(list, m, s, i + 1)
  }

  lemma {:induction false} SlicesPlaced(list: seq<Entity>, m: Offsets, s: string, i: nat)
    requires Fits(list, m, s) && 0 < i <= |list|
    requires forall k :: 0 <= k < |list| - 1 ==> HasSection(list[k])
    ensures var parts := Slices(list, m, s, i);
      && m.At(list[i - 1]) <= m.At(list[|list| - 1])
      && Places(m, parts, m.At(list[i - 1]), list[|list| - 1])
      && Texts(parts) == s[m.At(list[i - 1])..m.At(list[|list| - 1])]
    decreases |list| - i
  {
    if i < |list| {
      SlicesPlaced(list, m, s, i + 1);
      var parts := Slices(list, m, s, i);
      assert parts[1..] == Slices(list, m, s, i + 1);
      var lo, mid, hi := m.At(list[i - 1]), m.At(list[i]), m.At(list[|list| - 1]);
      assert |s[lo..mid]| == mid - lo > 0;
      assert s[lo..hi] == s[lo..mid] + s[mid..hi];
    }
  }

  lemma {:induction false} SliceNames(list: seq<Entity>, m: Offsets, s: string, i: nat)
    requires Fits(list, m, s) && 0 < i <= |list|
    ensures Names(Slices(list, m, s, i)) + [list[|list| - 1]] == list[i - 1..]
    decreases |list| - i
  {
    var last := list[|list| - 1];
    if i == |list| {
      assert Names([]) + [last] == [last] == list[i - 1..];
    } else {
      SliceNames(list, m, s, i + 1);
      var more := Slices(list, m, s, i + 1);
      assert Slices(list, m, s, i)[1..] == more;
      hide Slices;
      calc {
        Names(Slices(list, m, s, i)) + [last];
        [list[i - 1]] + Names(more) + [last];
        [list[i - 1]] + (Names(more) + [last]);
        [list[i - 1]] + list[i..];
        list[i - 1..];
      }
    }
  }

  lemma ListFits(list: seq<Entity>, m: Offsets, s: string)
    requires WellListed(list, m) && m.At(list[|list| - 1]) <= |s|
    ensures Fits(list, m, s)
  {
    forall k | 0 <= k < |list|
      ensures 0 <= m.At(list[k]) <= |s|
    {
      assert list[k] in list;
      assert k < |list| - 1 ==> m.At(list[k]) < m.At(list[|list| - 1]);
    }
  }

  /**
   For every Encapsulated list and every stream long enough for it, each section
   read is exactly the slice of the stream between its offset and the next; the
   slices add up to the last offset, and the last entity is read from there.
   */
  lemma Slicing(order: seq<Entity>, list: seq<Entity>, m: Offsets, s: string, garbage: Garbage)
    requires Sorts(order, m) && WellListed(list, m)
    requires m.At(list[|list| - 1]) <= |s|
    ensures Fits(list, m, s)
    ensures var last := list[|list| - 1];
      && Texts(Slices(list, m, s, 1)) == s[..m.At(last)]
      && SectionsRead(order, m, In(s, true), EMPTY, garbage) ==
         LastRead(last, In(s[m.At(last)..], true), Assembled(EMPTY, Slices(list, m, s, 1)), garbage)
  {
    hide SectionsRead, LastRead, Assembled, Names, Texts, Places, Sorts, Slices, Increasing, Fits;
    ListFits(list, m, s);
    var last := list[|list| - 1];
    var parts := Slices(list, m, s, 1);
    SlicesPlaced(list, m, s, 1);
    SliceNames(list, m, s, 1);
    assert list[0..] == list;
    assert s == s[0..m.At(last)] + s[m.At(last)..];
    MessageRead(order, m, parts, last, s[m.At(last)..], garbage);
  }

  // ----- Sending and reading again -----

  /** The parts of a payload that `update_encapsulated` lists before the last entity. */
  function HeaderParts(p: Payload): seq<Part> {
    (if p.reqHeader != "" then [Part(ReqHdr, p.reqHeader)] else []) +
    (if p.resHeader != "" then [Part(ResHdr, p.resHeader)] else [])
  }

  /** At most one body, as every list of section 4.4.1 of RFC 3507 has. */
  predicate OneBody(p: Payload) {
    p.reqBody == "" || p.resBody == ""
  }

  /** Each body fits one buffer. */
  predicate WithinBuffer(p: Payload) {
    |p.reqBody| <= BUFFER_SIZE && |p.resBody| <= BUFFER_SIZE
  }

  /** A body has a header before it and nothing after it; without a body there is at most one header. */
  predicate Carriable(p: Payload) {
    if p.reqBody != "" then p.reqHeader != "" && p.resHeader == ""
    else if p.resBody != "" then p.reqHeader != "" || p.resHeader != ""
    else p.reqHeader == "" || p.resHeader == ""
  }

  /** A body and no header. */
  predicate BodyAlone(p: Payload) {
    p.reqHeader == "" && p.resHeader == "" && HasBody(p)
  }

  /**
   The payloads that are read back as they were sent: those of a shape that can be carried whose
   body fits one buffer; and a body without header that reads the same encoded as raw.
   */
  predicate Survives(p: Payload) {
    var body := Section(p, BodyEntity(p));
    !p.ieof && if Carriable(p) then WithinBuffer(p) else BodyAlone(p) && Sent(body) == body
  }

  predicate HasBody(p: Payload) {
    p.reqBody != "" || p.resBody != ""
  }

  function BodyEntity(p: Payload): Entity {
    if p.reqBody != "" then ReqBody else ResBody
  }

  /** The entity listed last, and the text left for it behind the headers, for a payload that is carried. */
  function CarriedLast(p: Payload): Entity {
    if HasBody(p) then BodyEntity(p) else NullBody
  }

  lemma CarriedShape(p: Payload)
    requires Carriable(p) && OneBody(p) && Total(p) < 0x8000_0000
    ensures var m := Updated(FRESH, p);
      && Laid(p) == Names(HeaderParts(p)) + [CarriedLast(p)]
      && Places(m, HeaderParts(p), 0, CarriedLast(p))
      && Assembled(EMPTY, HeaderParts(p)) == p.(reqBody := "", resBody := "", ieof := false)
  {
    hide Updated;
    var parts, m, last := HeaderParts(p), Updated(FRESH, p), CarriedLast(p);
    assert m.At(last) == |p.reqHeader| + |p.resHeader| by {
      UpdatedFresh(p);
    }
    assert p.reqHeader != "" ==> m.At(ReqHdr) == 0 by {
      UpdatedFresh(p);
    }
    assert p.resHeader != "" ==> m.At(ResHdr) == |p.reqHeader| by {
      UpdatedFresh(p);
    }
    hide FreshOffset;
    if p.reqHeader != "" && p.resHeader != "" {
      TwoParts(m, parts[0], parts[1], last);
      assert parts == [parts[0], parts[1]];
    } else if parts != [] {
      assert parts[1..] == [];
    }
  }

  lemma TwoParts(m: Offsets, a: Part, b: Part, last: Entity)
    ensures Places(m, [a, b], 0, last) <==>
      && m.At(a.entity) == 0 && m.At(b.entity) == |a.text| && m.At(last) == |a.text| + |b.text|
      && a.text != "" && b.text != "" && HasSection(a.entity) && HasSection(b.entity)
    ensures forall p :: Assembled(p, [a, b]) == WithSection(WithSection(p, a.entity, a.text), b.entity, b.text)
    ensures Texts([a, b]) == a.text + b.text
    ensures Names([a, b]) == [a.entity, b.entity]
  {
    assert [a, b][1..] == [b];
    assert [b][1..] == [];
    assert Places(m, [], |a.text| + |b.text|, last) <==> m.At(last) == |a.text| + |b.text|;
    assert forall p :: Assembled(p, [b]) == Assembled(WithSection(p, b.entity, b.text), []);
    assert Texts([b]) == b.text + "";
  }

  lemma CarriedEmission(p: Payload, tail: string)
    requires Carriable(p) && OneBody(p)
    ensures Emission(p) + tail ==
            Texts(HeaderParts(p)) + ((if HasBody(p) then Sent(Section(p, BodyEntity(p))) else "") + tail)
  {
    hide Sent;
    var parts := HeaderParts(p);
    if p.reqHeader != "" && p.resHeader != "" {
      TwoParts(FRESH, parts[0], parts[1], NullBody);
      assert parts == [parts[0], parts[1]];
    } else if parts != [] {
      assert parts[1..] == [];
      assert Texts(parts) == parts[0].text + "";
    }
  }

  lemma CarriedRoundTrip(p: Payload, order: seq<Entity>, tail: string, garbage: Garbage)
    requires Carriable(p) && OneBody(p) && Total(p) < 0x8000_0000
    requires Sorts(order, Updated(FRESH, p))
    ensures SectionsRead(order, Updated(FRESH, p), In(Emission(p) + tail, true), EMPTY, garbage) == (p, In(tail, true))
            <==> !p.ieof && WithinBuffer(p)
  {
    Layout(p);
    CarriedShape(p);
    CarriedEmission(p, tail);
    hide SectionsRead, Updated, Emission, Texts, Assembled, Names, Places, HeaderParts, Sent, PayloadRead;
    hide Present, Laid, LastRead;
    var last := CarriedLast(p);
    var after := (if HasBody(p) then Sent(Section(p, BodyEntity(p))) else "") + tail;
    MessageRead(order, Updated(FRESH, p), HeaderParts(p), last, after, garbage);
    LastReadBack(p, tail, garbage);
  }

  lemma LastReadBack(p: Payload, tail: string, garbage: Garbage)
    requires OneBody(p) && Total(p) < 0x8000_0000
    ensures
      var after := (if HasBody(p) then Sent(Section(p, BodyEntity(p))) else "") + tail;
      var headers := p.(reqBody := "", resBody := "", ieof := false);
      LastRead(CarriedLast(p), In(after, true), headers, garbage) == (p, In(tail, true)) <==> !p.ieof && WithinBuffer(p)
  {
    hide Sent, PayloadRead;
    if HasBody(p) {
      var d := Section(p, BodyEntity(p));
      EncoderAgainstDecoder(d, "", tail, garbage);
      RoundTripExactly(d, tail, garbage);
    } else {
      assert "" + tail == tail;
    }
  }

  /** Storing sections never reaches the last entity unless it is a body. */
  lemma {:induction false} LastUnread(list: seq<Entity>, m: Offsets, s: In, p: Payload, garbage: Garbage)
    requires list != [] && !IsBody(list[|list| - 1])
    requires forall i :: 0 <= i < |list| - 1 ==> list[i] != list[|list| - 1]
    ensures Section(SectionsRead(list, m, s, p, garbage).0, list[|list| - 1]) == Section(p, list[|list| - 1])
  {
    if |list| > 1 {
      var rest := list[1..];
      assert rest[|rest| - 1] == list[|list| - 1];
      if m.At(list[0]) < 0 {
        LastUnread(rest, m, s, p, garbage);
      } else {
        var (p1, s1) := SectionRead(list[0], m.At(list[1]) - m.At(list[0]), s, p);
        LastUnread(rest, m, s1, p1, garbage);
      }
    }
  }

  /** A response header that is listed last, behind something else, is not read. */
  lemma HeaderLost(p: Payload, order: seq<Entity>, s: In, garbage: Garbage)
    requires p.resHeader != "" && p.resBody == "" && (p.reqHeader != "" || p.reqBody != "") && Total(p) < 0x8000_0000
    requires Sorts(order, Updated(FRESH, p))
    ensures SectionsRead(order, Updated(FRESH, p), s, EMPTY, garbage).0.resHeader == ""
  {
    hide SectionsRead, Updated;
    var list := Laid(p);
    assert list[|list| - 1] == ResHdr;
    hide Laid;
    Layout(p);
    LaidRanked(p);
    SortedRead(order, Updated(FRESH, p), list, s, garbage);
    forall i | 0 <= i < |list| - 1
      ensures list[i] != ResHdr
    {
      assert SendRank(list[i]) < SendRank(list[|list| - 1]);
    }
    LastUnread(list, Updated(FRESH, p), s, EMPTY, garbage);
  }

  /** A body without header is read raw, by its unencoded length. */
  lemma BodyAloneRead(p: Payload, order: seq<Entity>, s: In, garbage: Garbage)
    requires BodyAlone(p) && OneBody(p) && Total(p) < 0x8000_0000
    requires Sorts(order, Updated(FRESH, p))
    ensures
      var (data, s1) := DataRead(s, Total(p));
      SectionsRead(order, Updated(FRESH, p), s, EMPTY, garbage) == (WithSection(EMPTY, BodyEntity(p), data), s1)
  {
    hide SectionsRead, Updated;
    Layout(p);
    var m, body := Updated(FRESH, p), BodyEntity(p);
    assert Laid(p) == [body, NullBody];
    assert m.At(body) == 0 && m.At(NullBody) == Total(p) by {
      UpdatedFresh(p);
    }
    hide Laid;
    SortedRead(order, m, [body, NullBody], s, garbage);
    RawRead(body, m, s, garbage);
  }

  lemma RawRead(body: Entity, m: Offsets, s: In, garbage: Garbage)
    requires IsBody(body) && m.At(body) == 0 < m.At(NullBody)
    ensures
      var (data, s1) := DataRead(s, m.At(NullBody));
      SectionsRead([body, NullBody], m, s, EMPTY, garbage) == (WithSection(EMPTY, body, data), s1)
  {
    hide DataRead;
    assert [body, NullBody][1..] == [NullBody];
  }

  lemma BodyAloneRoundTrip(p: Payload, order: seq<Entity>, tail: string, garbage: Garbage)
    requires BodyAlone(p) && OneBody(p) && Total(p) < 0x8000_0000
    requires Sorts(order, Updated(FRESH, p))
    ensures SectionsRead(order, Updated(FRESH, p), In(Emission(p) + tail, true), EMPTY, garbage) == (p, In(tail, true))
            <==> !p.ieof && Sent(Section(p, BodyEntity(p))) == Section(p, BodyEntity(p))
  {
    var d := Section(p, BodyEntity(p));
    hide SectionsRead, Updated, Sent;
    BodyAloneRead(p, order, In(Emission(p) + tail, true), garbage);
    assert Emission(p) == Sent(d) by {
      assert "" + SentBody(p.reqBody) + "" + SentBody(p.resBody) == SentBody(p.reqBody) + SentBody(p.resBody);
      assert "" + Sent(d) == Sent(d) + "" == Sent(d);
    }
    RawMatches(Sent(d), d, tail);
  }

  /** Reading as many octets as `d` has yields `d` and leaves the tail exactly when they are `d`. */
  lemma RawMatches(sent: string, d: string, tail: string)
    requires d != ""
    ensures DataRead(In(sent + tail, true), |d|) == (d, In(tail, true)) <==> sent == d
  {
    var s := sent + tail;
    if |d| <= |s| && s[|d|..] == tail {
      assert |sent| == |d|;
      assert s[..|d|] == sent;
    }
    if sent == d {
      DataReadExact(d, tail);
    }
  }

  /** The octets sent of a payload with two bodies, from the request body on. */
  function FromBody(p: Payload, tail: string): string {
    Sent(p.reqBody) + (p.resHeader + Sent(p.resBody) + tail)
  }

  /**
   With two bodies the request body is read raw from its own encoding, and the response header from
   what follows: they must stand there, and what is left must decode to the response body.
   */
  predicate ReadInPlace(p: Payload, tail: string, garbage: Garbage) {
    var sent := FromBody(p, tail);
    var raw := p.reqBody + p.resHeader;
    raw <= sent && PayloadRead(In(sent[|raw|..], true), "", garbage) == (p.resBody, p.ieof, In(tail, true))
  }

  /** The entities listed for two bodies, from the request body on. */
  function ListedFromBody(p: Payload): seq<Entity> {
    [ReqBody] + (if p.resHeader != "" then [ResHdr] else []) + [ResBody]
  }

  lemma TwoBodiesListed(p: Payload)
    requires p.reqBody != "" && p.resBody != "" && Total(p) < 0x8000_0000
    ensures Laid(p) == (if p.reqHeader != "" then [ReqHdr] else []) + ListedFromBody(p)
    ensures forall e :: e in Laid(p) ==> FreshOffset(p, e) == Before(p, e)
  {
  }

  /** What the reads yield from the request body on. */
  lemma ReadFromBody(p: Payload, m: Offsets, s: In, header: string, garbage: Garbage)
    requires p.reqBody != "" && forall e :: e in ListedFromBody(p) ==> m.At(e) == Before(p, e)
    ensures
      var (reqBody, s1) := DataRead(s, |p.reqBody|);
      var (resHeader, s2) := DataRead(s1, |p.resHeader|);
      SectionsRead(ListedFromBody(p), m, s, EMPTY.(reqHeader := header), garbage) ==
      LastRead(ResBody, s2, Payload(header, reqBody, resHeader, "", false), garbage)
  {
    hide LastRead;
    var list := ListedFromBody(p);
    assert m.At(list[0]) == |p.reqHeader| && m.At(list[1]) == |p.reqHeader| + |p.reqBody|;
    if p.resHeader == "" {
      assert list == [ReqBody, ResBody];
      assert list[1..] == [ResBody];
    } else {
      assert list == [ReqBody, ResHdr, ResBody];
      assert list[1..] == [ResHdr, ResBody] && list[1..][1..] == [ResBody];
      assert m.At(list[2]) == |p.reqHeader| + |p.reqBody| + |p.resHeader|;
      var (d1, s1) := DataRead(s, |p.reqBody|);
      var (d2, s2) := DataRead(s1, |p.resHeader|);
      var p1, p2 := Payload(header, d1, "", "", false), Payload(header, d1, d2, "", false);
      assert SectionsRead(list, m, s, EMPTY.(reqHeader := header), garbage) ==
             SectionsRead(list[1..], m, s1, p1, garbage);
      assert SectionsRead(list[1..], m, s1, p1, garbage) == SectionsRead([ResBody], m, s2, p2, garbage);
    }
  }

  lemma TwoBodiesRead(p: Payload, tail: string, garbage: Garbage)
    requires p.reqBody != "" && p.resBody != "" && Total(p) < 0x8000_0000
    ensures
      var (reqBody, s1) := DataRead(In(FromBody(p, tail), true), |p.reqBody|);
      var (resHeader, s2) := DataRead(s1, |p.resHeader|);
      SectionsRead(Laid(p), Updated(FRESH, p), In(Emission(p) + tail, true), EMPTY, garbage) ==
      LastRead(ResBody, s2, Payload(p.reqHeader, reqBody, resHeader, "", false), garbage)
  {
    hide Updated, Sent, Laid, DataRead, LastRead, FreshOffset;
    var m, list, sent := Updated(FRESH, p), ListedFromBody(p), FromBody(p, tail);
    TwoBodiesListed(p);
    UpdatedFresh(p);
    ReadFromBody(p, m, In(sent, true), p.reqHeader, garbage);
    assert Emission(p) + tail == p.reqHeader + sent;
    if p.reqHeader == "" {
      assert [] + list == list && "" + sent == sent;
    } else {
      assert ([ReqHdr] + list)[1..] == list;
      DataReadExact(p.reqHeader, sent);
    }
  }

  /** Two pieces read one after another are `a` and `b` exactly when these stand there. */
  lemma TwoPieces(s: string, a: string, b: string)
    requires a != ""
    ensures
      var (first, s1) := DataRead(In(s, true), |a|);
      var (second, s2) := DataRead(s1, |b|);
      && (first == a && second == b && s2.good ==> a + b <= s)
      && (a + b <= s ==> first == a && second == b && s2 == In(s[|a + b|..], true))
  {
    if a + b <= s {
      assert s[..|a|] == (a + b)[..|a|] == a;
      assert s[|a|..][..|b|] == (a + b)[|a|..] == b;
    }
    if |a| <= |s| && |b| <= |s[|a|..]| {
      assert s[..|a| + |b|] == s[..|a|] + s[|a|..][..|b|];
    }
  }

  lemma TwoBodies(p: Payload, order: seq<Entity>, tail: string, garbage: Garbage)
    requires p.reqBody != "" && p.resBody != "" && Total(p) < 0x8000_0000
    requires Sorts(order, Updated(FRESH, p))
    ensures SectionsRead(order, Updated(FRESH, p), In(Emission(p) + tail, true), EMPTY, garbage) == (p, In(tail, true))
            <==> ReadInPlace(p, tail, garbage)
  {
    hide SectionsRead, Updated, Laid, Emission, DataRead, Filled, Sorts, PayloadRead, FromBody;
    Layout(p);
    SortedRead(order, Updated(FRESH, p), Laid(p), In(Emission(p) + tail, true), garbage);
    TwoBodiesRead(p, tail, garbage);
    TwoPieces(FromBody(p, tail), p.reqBody, p.resHeader);
    var (first, s1) := DataRead(In(FromBody(p, tail), true), |p.reqBody|);
    var (second, s2) := DataRead(s1, |p.resHeader|);
    NothingFromBad(s2, garbage);
    var (body, ieof, s3) := PayloadRead(s2, "", garbage);
    assert LastRead(ResBody, s2, Payload(p.reqHeader, first, second, "", false), garbage) ==
           (Payload(p.reqHeader, first, second, body, ieof), s3);
  }

  /** A failed stream yields no body and stays failed. */
  lemma NothingFromBad(s: In, garbage: Garbage)
    ensures !s.good ==> !PayloadRead(s, "", garbage).2.good
  {
  }

  /** Exactly the payloads that are read back as they were sent. */
  predicate ReadBack(p: Payload, tail: string, garbage: Garbage) {
    if OneBody(p) then Survives(p) else ReadInPlace(p, tail, garbage)
  }

  /**
   A response written by `send_response` and read back under the offsets of its own header gives
   the same payload and ends where the message ends, exactly for the payloads that survive; with
   two bodies, exactly if they are met in place.
   */
  lemma MessageRoundTrip(p: Payload, order: seq<Entity>, tail: string, garbage: Garbage)
    requires Total(p) < 0x8000_0000
    requires Sorts(order, Updated(FRESH, p))
    ensures SectionsRead(order, Updated(FRESH, p), In(Emission(p) + tail, true), EMPTY, garbage) == (p, In(tail, true))
            <==> ReadBack(p, tail, garbage)
  {
    hide SectionsRead, Emission, Updated, Sent, ReadInPlace;
    if !OneBody(p) {
      TwoBodies(p, order, tail, garbage);
    } else if Carriable(p) {
      CarriedRoundTrip(p, order, tail, garbage);
    } else if BodyAlone(p) {
      BodyAloneRoundTrip(p, order, tail, garbage);
    } else {
      HeaderLost(p, order, In(Emission(p) + tail, true), garbage);
    }
  }

  lemma SentLonger(d: string)
    requires 0 < |d| <= BUFFER_SIZE
    ensures |Sent(d)| > |d|
  {
    SingleBlock(d);
    assert Block(d, 0) == d;
    assert Blocks(d)[1..] == [];
    assert |Frames(Blocks(d))| == |Framed(d)|;
  }

  /** The octets of a size line for a whole buffer, over and over, and the end of a chunked body. */
  function SelfEncoded(): string {
    seq(BUFFER_SIZE + 5, i requires 0 <= i => "400\r\n"[i % 5]) + FINAL
  }

  /** There is a body that reads the same encoded as raw; no body within one buffer does. */
  lemma SelfEncodedExists(d: string)
    ensures Sent(SelfEncoded()) == SelfEncoded()
    ensures 0 < |d| <= BUFFER_SIZE ==> Sent(d) != d
  {
    if 0 < |d| <= BUFFER_SIZE {
      SentLonger(d);
    }
    var s := SelfEncoded();
    var block, lines := Block(s, 0), s[..BUFFER_SIZE + 5];
    assert Blocks(s)[1..] == [];
    assert Frames(Blocks(s)) == Framed(block) + "" == Framed(block);
    BufferNumeral();
    assert Framed(block) == "400" + CRLF + block == "400\r\n" + block;
    Shifted(lines, block);
    assert s == lines + FINAL;
  }

  lemma Shifted(lines: string, block: string)
    requires |lines| == |block| + 5 && block <= lines
    requires forall i :: 0 <= i < |lines| ==> lines[i] == "400\r\n"[i % 5]
    ensures "400\r\n" + block == lines
  {
    forall i | 0 <= i < |lines|
      ensures ("400\r\n" + block)[i] == lines[i]
    {
      assert i >= 5 ==> block[i - 5] == lines[i - 5] && (i - 5) % 5 == i % 5;
    }
  }

  /**
   When no body precedes another section, the offset of each section is where
   its octets start in what is sent.
   */
  lemma OffsetsAreStarts(p: Payload, e: Entity)
    requires Total(p) < 0x8000_0000
    requires p.reqBody == "" || (p.resHeader == "" && p.resBody == "")
    requires e in Filled(p)
    ensures var at := Updated(FRESH, p).At(e);
      && 0 <= at <= |Emission(p)|
      && (if IsBody(e) then Sent(Section(p, e)) else Section(p, e)) <= Emission(p)[at..]
  {
    assert Section(p, e) != "" by {
      FilledMembers(p);
    }
    assert Updated(FRESH, p).At(e) == Before(p, e) by {
      UpdatedFresh(p);
    }
    hide Updated, Sent, Filled;
    FourApart(p.reqHeader, SentBody(p.reqBody), p.resHeader, SentBody(p.resBody));
  }

  lemma FourApart(a: string, b: string, c: string, d: string)
    ensures var all := a + b + c + d;
      a <= all[0..] && b <= all[|a|..] && c <= all[|a| + |b|..] && d <= all[|a| + |b| + |c|..]
  {
  }

  /** A response with both headers and no body: the second header is left on the stream. */
  lemma TwoHeadersExample(order: seq<Entity>, garbage: Garbage)
    requires Sorts(order, Updated(FRESH, Payload("a", "", "b", "", false)))
    ensures
      var p := Payload("a", "", "b", "", false);
      && Emission(p) == "ab"
      && SectionsRead(order, Updated(FRESH, p), In("ab", true), EMPTY, garbage) ==
         (Payload("a", "", "", "", false), In("b", true))
  {
    hide SectionsRead, Updated;
    var p := Payload("a", "", "b", "", false);
    var parts := [Part(ReqHdr, "a")];
    assert Laid(p) == [ReqHdr, ResHdr];
    assert parts[1..] == [];
    assert Names(parts) + [ResHdr] == [ReqHdr, ResHdr];
    assert Texts(parts) == "a" + "" == "a";
    assert "a" + "b" == "ab";
    assert Updated(FRESH, p).At(ReqHdr) == 0 && Updated(FRESH, p).At(ResHdr) == 1 by {
      UpdatedFresh(p);
    }
    assert Places(Updated(FRESH, p), parts, 0, ResHdr);
    assert Emission(p) == "ab";
    assert Assembled(EMPTY, parts) == Payload("a", "", "", "", false);
    hide Places, Emission, Assembled, Laid, Texts, Names;
    Layout(p);
    MessageRead(order, Updated(FRESH, p), parts, ResHdr, "b", garbage);
  }
}
