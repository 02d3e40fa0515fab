/**
 Reading an encapsulated message under the offsets of its header
 (`read_req_data`, `read_req_continue_data`), and sending one (the payload part
 of `send_response`).
 */
module Message {
  import opened Octets
  import opened Wire
  import opened Chunked
  import opened Encapsulated

  // ----- What the readers compute -----

  /** The section `e` replaced; null-body and opt-body have none. */
  function WithSection(p: Payload, e: Entity, text: string): Payload {
    match e
    case ReqHdr => p.(reqHeader := text)
    case ReqBody => p.(reqBody := text)
    case ResHdr => p.(resHeader := text)
    case ResBody => p.(resBody := text)
    case _ => p
  }

  predicate HasSection(e: Entity) {
    e != NullBody && e != OptBody
  }

  predicate IsBody(e: Entity) {
    e == ReqBody || e == ResBody
  }

  /** The last entity of the list: a body is read as chunked data, anything else is not read. */
  function LastRead(e: Entity, s: In, p: Payload, garbage: Garbage): (Payload, In) {
    if IsBody(e) then
      var (body, ieof, s1) := PayloadRead(s, Section(p, e), garbage);
      (WithSection(p, e, body).(ieof := ieof), s1)
    else (p, s)
  }

  /** An entity before the last: as many octets as its neighbour's offset leaves for it. */
  function SectionRead(e: Entity, length: int, s: In, p: Payload): (Payload, In) {
    if length > 0 && HasSection(e) then
      var (data, s1) := DataRead(s, length);
      (WithSection(p, e, data), s1)
    else (p, s)
  }

  /** The loop of `read_req_data` over the sorted entities. */
  function SectionsRead(order: seq<Entity>, m: Offsets, s: In, p: Payload, garbage: Garbage): (Payload, In) {
    if order == [] then (p, s)
    else if m.At(order[0]) < 0 then SectionsRead(order[1..], m, s, p, garbage)
    else if |order| == 1 then LastRead(order[0], s, p, garbage)
    else
      var (p1, s1) := SectionRead(order[0], m.At(order[1]) - m.At(order[0]), s, p);
      SectionsRead(order[1..], m, s1, p1, garbage)
  }

  // ----- The request object and its readers -----

  class Request {
    const header: Header
    var payload: Payload

    constructor (header: Header)
      ensures this.header == header && payload == EMPTY
    {
      this.header := header;
      payload := EMPTY;
    }

    /** `payload`: stores the payload and recomputes the offsets. */
    method SetPayload(p: Payload)
      modifies this, header`encapsulated
      ensures payload == p
      ensures header.encapsulated == Updated(old(header.encapsulated), p)
    {
      payload := p;
      header.UpdateEncapsulated(p);
    }
  }

  /** `read_req_data`, for whatever order the sort returned. */
  method ReadReqData(request: Request, socket: Socket) returns (ok: bool, ghost order: seq<Entity>)
    modifies request, request.header`encapsulated, socket`unread, socket`good
    ensures ok && Sorts(order, old(request.header.encapsulated))
    ensures (request.payload, socket.Incoming()) ==
            SectionsRead(order, old(request.header.encapsulated), old(socket.Incoming()), EMPTY, socket.stale)
    ensures request.header.encapsulated == Updated(old(request.header.encapsulated), request.payload)
  {
    var sorted := request.header.SortEncapsulated();
    order := sorted;
    var payload := ReadSorted(sorted, request.header.encapsulated, socket);
    request.SetPayload(payload);
    ok := true;
  }

  /** The loop of `read_req_data`. */
  method ReadSorted(sorted: seq<Entity>, m: Offsets, socket: Socket) returns (payload: Payload)
    modifies socket`unread, socket`good
    ensures (payload, socket.Incoming()) ==
            SectionsRead(sorted, m, old(socket.Incoming()), EMPTY, socket.stale)
  {
    hide LastRead, SectionRead;
    payload := EMPTY;
    var i := 0;
    assert sorted[0..] == sorted;
    while i < |sorted|
      invariant 0 <= i <= |sorted|
      invariant SectionsRead(sorted, m, old(socket.Incoming()), EMPTY, socket.stale) ==
                SectionsRead(sorted[i..], m, socket.Incoming(), payload, socket.stale)
    {
      var e := sorted[i];
      assert sorted[i..][1..] == sorted[i + 1..];
      if m.At(e) < 0 {
        i := i + 1;
        continue;
      }
      if i == |sorted| - 1 {
        payload := ReadLast(e, payload, socket);
      } else {
        var length := m.At(sorted[i + 1]) - m.At(e);
        assert sorted[i..][1] == sorted[i + 1];
        payload := ReadSection(e, length, payload, socket);
      }
      i := i + 1;
    }
  }

  /** The branch of `read_req_data` for the last entity. */
  method ReadLast(e: Entity, p: Payload, socket: Socket) returns (payload: Payload)
    modifies socket`unread, socket`good
    ensures (payload, socket.Incoming()) == LastRead(e, old(socket.Incoming()), p, socket.stale)
  {
    payload := p;
    if e == ReqBody {
      var body, ieof := ReadChunkedPayload(socket, payload.reqBody);
      payload := payload.(reqBody := body, ieof := ieof);
    } else if e == ResBody {
      var body, ieof := ReadChunkedPayload(socket, payload.resBody);
      payload := payload.(resBody := body, ieof := ieof);
    }
  }

  /** The branch of `read_req_data` for the entities before the last. */
  method ReadSection(e: Entity, length: int, p: Payload, socket: Socket) returns (payload: Payload)
    modifies socket`unread, socket`good
    ensures (payload, socket.Incoming()) == SectionRead(e, length, old(socket.Incoming()), p)
  {
    payload := p;
    if length > 0 {
      if e == ReqHdr {
        var data := socket.ReadData(length);
        payload := payload.(reqHeader := data);
      } else if e == ReqBody {
        var data := socket.ReadData(length);
        payload := payload.(reqBody := data);
      } else if e == ResHdr {
        var data := socket.ReadData(length);
        payload := payload.(resHeader := data);
      } else if e == ResBody {
        var data := socket.ReadData(length);
        payload := payload.(resBody := data);
      }
    }
  }

  /** `read_req_continue_data`: only the last entity of the sorted list matters. */
  method ReadReqContinueData(request: Request, socket: Socket) returns (ok: bool, ghost order: seq<Entity>)
    modifies request, request.header`encapsulated, socket`unread, socket`good
    ensures ok && Sorts(order, old(request.header.encapsulated)) && order != []
    ensures (request.payload, socket.Incoming()) ==
            LastRead(order[|order| - 1], old(socket.Incoming()), old(request.payload), socket.stale)
    ensures request.header.encapsulated == Updated(old(request.header.encapsulated), request.payload)
  {
    var sorted := request.header.SortEncapsulated();
    order := sorted;
    assert NullBody in sorted;
    if |sorted| > 0 {
      var payload := ReadLast(sorted[|sorted| - 1], request.payload, socket);
      request.SetPayload(payload);
      ok := true;
    } else {
      ok := false;
    }
  }

  // ----- Sending -----

  function SentBody(body: string): string {
    if body != "" then Sent(body) else ""
  }

  /** What `send_response` writes after the header block. */
  function Emission(p: Payload): string {
    p.reqHeader + SentBody(p.reqBody) + p.resHeader + SentBody(p.resBody)
  }

  /** The payload part of `send_response`; it ignores failing writes. */
  method SendPayload(p: Payload, socket: Socket)
    modifies socket`output
    ensures socket.output == old(socket.output) + if socket.writable then Emission(p) else ""
  {
    hide Sent;
    if |p.reqHeader| > 0 {
      var _ := socket.SendData(p.reqHeader);
    }
    ghost var so1 := socket.output;
    if |p.reqBody| > 0 {
      var _ := SendChunked(p.reqBody, socket);
    }
    ghost var so2 := socket.output;
    if |p.resHeader| > 0 {
      var _ := socket.SendData(p.resHeader);
    }
    ghost var so3 := socket.output;
    if |p.resBody| > 0 {
      var _ := SendChunked(p.resBody, socket);
    }
    if socket.writable {
      assert so1 == old(socket.output) + p.reqHeader;
      assert so2 == so1 + SentBody(p.reqBody);
      assert so3 == so2 + p.resHeader;
      assert socket.output == so3 + SentBody(p.resBody);
      Associative(old(socket.output), p.reqHeader, SentBody(p.reqBody));
      Associative(old(socket.output), p.reqHeader + SentBody(p.reqBody), p.resHeader);
      Associative(old(socket.output), p.reqHeader + SentBody(p.reqBody) + p.resHeader, SentBody(p.resBody));
    }
  }
}
