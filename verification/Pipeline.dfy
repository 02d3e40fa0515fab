/**
 A whole connection: what a client gets that sends one request after another.
 */
module Pipeline {
  import opened Wire
  import opened Chunked
  import opened Encapsulated
  import opened Message
  import opened MessageLaws
  import opened Preview
  import opened Framing
  import opened RequestHeaders
  import opened Responses
  import opened Handler
  import opened Session
  import opened Worker

  // ----- The contract of `serve_client` leaves nothing open -----

  ghost predicate SameSorts(t: Turn, u: Turn) {
    t.Served? && u.Served? ==> t.order == u.order && t.reorder == u.reorder
  }

  /** A connection is determined by what arrives, the timeouts, the budget and the outcomes of the sorts. */
  lemma ConnectionDetermined(
    w: Worker, s: In, writable: bool, garbage: Garbage, timedOut: nat -> bool, budget: nat,
    a: seq<Turn>, b: seq<Turn>)
    requires w.Connection(s, writable, garbage, timedOut, budget, a)
    requires w.Connection(s, writable, garbage, timedOut, budget, b)
    requires forall i :: 0 <= i < |a| && i < |b| ==> SameSorts(a[i], b[i])
    ensures a == b
  {
    var n := if |a| < |b| then |a| else |b|;
    SameTurns(w, s, writable, garbage, timedOut, a, b, n);
    assert a[n - 1] == b[n - 1];
    assert a == a[..n] && b == b[..n];
  }

  lemma {:induction false} SameTurns(
    w: Worker, s: In, writable: bool, garbage: Garbage, timedOut: nat -> bool, a: seq<Turn>, b: seq<Turn>, n: nat)
    requires w.Chained(s, writable, garbage, timedOut, a) && w.Chained(s, writable, garbage, timedOut, b)
    requires n <= |a| && n <= |b| && forall i :: 0 <= i < n ==> SameSorts(a[i], b[i])
    ensures a[..n] == b[..n]
  {
    hide Worker.TurnFrom, SameSorts;
    if n > 0 {
      SameTurns(w, s, writable, garbage, timedOut, a, b, n - 1);
      assert w.Linked(s, writable, garbage, timedOut, a, n - 1) && w.Linked(s, writable, garbage, timedOut, b, n - 1);
      assert SameSorts(a[n - 1], b[n - 1]);
      if n > 1 {
        assert a[n - 2] == a[..n - 1][n - 2] && b[n - 2] == b[..n - 1][n - 2];
      }
      SameTurn(w, Ahead(s, a, n - 1), writable, garbage, a[n - 1], b[n - 1]);
      assert a[..n] == a[..n - 1] + [a[n - 1]] && b[..n] == b[..n - 1] + [b[n - 1]];
    }
  }

  lemma SameTurn(w: Worker, s: In, writable: bool, garbage: Garbage, t: Turn, u: Turn)
    requires w.TurnFrom(s, writable, garbage, t) && w.TurnFrom(s, writable, garbage, u)
    requires SameSorts(t, u) && (t.TimedOut? <==> u.TimedOut?)
    ensures t == u
  {
    hide BlockRead, HeaderParsed, Sorts, Updated, SectionsRead, Handled;
  }

  // ----- One request after another -----

  /** The request is one for a handler. */
  predicate Processes(w: Worker, q: Inquiry) {
    Parse(q).line.verb != "OPTIONS" && Parse(q).line.verb in w.handlers
  }

  /** The client sends the second part exactly when it is asked for it, and it is well-formed. */
  ghost predicate Follows(h: RequestHandler, q: Inquiry)
    requires LegalHeaders(q.headers)
  {
    if Previews(Parse(q).fields) && Asked(h.handlers, q).Continued? && !(IsBody(q.last) && Ieof(q.first))
    then Continuable(q)
    else q.second == None
  }

  /** A well-formed request; if it is for a handler, its client waits for the 100 Continue. */
  ghost predicate Acceptable(w: Worker, q: Inquiry) {
    WellFormed(q) && (Processes(w, q) ==> Follows(w.handlers[Parse(q).line.verb], q))
  }

  /** Nothing follows the header block. */
  predicate OnlyHeader(q: Inquiry) {
    q.headers == [] && q.last == NullBody && q.second == None
  }

  /** The worker reads all of the request. */
  predicate ReadWhole(w: Worker, q: Inquiry) {
    if Processes(w, q) then RestRead(q) else OnlyHeader(q)
  }

  /**
   What is left on the stream after the request: only a handler reads what follows the header
   block, and it may lose the second part of a preview.
   */
  function LeftBehind(w: Worker, q: Inquiry, tail: string): string {
    if Processes(w, q) then Unread(q, tail) else MessageOctets(q, tail)
  }

  /** What a handler answers: perhaps a 100 Continue, and a response. */
  ghost function HandlerAnswers(h: RequestHandler, q: Inquiry): (Option<Response>, Response)
    requires LegalHeaders(q.headers)
  {
    if !Previews(Parse(q).fields) then (None, Finish(Modified(h.handlers, FirstView(q)), h.stamp))
    else
      match Asked(h.handlers, q)
      case Answered(Some(r)) => (None, r)
      case Answered(None) => (None, ServerError(h.stamp))
      case Continued(r) =>
        if IsBody(q.last) && Ieof(q.first) then (None, ServerError(h.stamp))
        else (Some(r), Finish(Modified(h.handlers, FullView(q)), h.stamp))
  }

  /** The answers to a request: they depend on nothing but the request. */
  ghost function WorkerAnswers(w: Worker, q: Inquiry): (Option<Response>, Response)
    requires LegalHeaders(q.headers)
  {
    if Parse(q).line.verb == "OPTIONS" then (None, w.options)
    else if Parse(q).line.verb in w.handlers then HandlerAnswers(w.handlers[Parse(q).line.verb], q)
    else (None, NewResponse(w.stamp, NOT_ALLOWED))
  }

  /** And as they are sent. */
  ghost function Replies(w: Worker, q: Inquiry): seq<Response>
    requires LegalHeaders(q.headers)
  {
    var (interim, last) := WorkerAnswers(w, q);
    OnConnection(interim, last, KeepAlive(Parse(q).fields))
  }

  /** The turn answers this request. */
  ghost predicate Answers(w: Worker, q: Inquiry, t: Turn) {
    && t.Served? && t.header == Parse(q)
    && LegalHeaders(q.headers) && SentIn(t) == Replies(w, q)
  }

  /** One turn on a request that arrives as it was sent. */
  lemma TurnAnswers(w: Worker, q: Inquiry, tail: string, garbage: Garbage, t: Turn)
    requires Acceptable(w, q)
    requires w.TurnFrom(In(OnWire(q, tail), true), true, garbage, t) && t.Served?
    requires TiesKept(q, t.reorder)
    ensures Answers(w, q, t) && Behind(t) == In(LeftBehind(w, q, tail), true)
  {
    hide BlockRead, HeaderParsed, LinesAttached, LineParsed, OnWire, Modified, Handled, Previews, Finish, FirstView,
      FullView, Announced, SecondOctets, PreviewVerdict, Sorts, WellFormed, LegalHeaders, Updated, SectionsRead,
      TiesKept, MessageOctets, Continuable, Follows, HandlerAnswers;
    WellFormedHeaders(q);
    HeaderArrives(q, tail);
    if Processes(w, q) {
      HandledAnswers(w.handlers[Parse(q).line.verb], q, tail, garbage, t.order, t.reorder);
    }
  }

  lemma HandledAnswers(
    h: RequestHandler, q: Inquiry, tail: string, garbage: Garbage, order: seq<Entity>, reorder: seq<Entity>)
    requires WellFormed(q) && Follows(h, q)
    requires TiesKept(q, reorder)
    requires
      var m := Parse(q).fields.offsets;
      var s := In(MessageOctets(q, tail), true);
      Sorts(order, m) && reorder != [] && Sorts(reorder, Updated(m, SectionsRead(order, m, s, EMPTY, garbage).0))
    ensures LegalHeaders(q.headers)
    ensures
      var s := In(MessageOctets(q, tail), true);
      var done := Handled(h.handlers, h.stamp, Parse(q), s, true, order, reorder, garbage);
      && done.stream == In(Unread(q, tail), true)
      && (done.interim, done.response) == HandlerAnswers(h, q)
  {
    hide BlockRead, HeaderParsed, LinesAttached, LineParsed, OnWire, Modified, Handled, Previews, Finish, FirstView,
      FullView, Announced, SecondOctets, PreviewVerdict, Sorts, WellFormed, LegalHeaders, Updated, SectionsRead,
      TiesKept, MessageOctets, Continuable, Parse;
    ViewOffsets(q, tail, order, garbage);
    HeaderArrives(q, tail);
    if !Previews(Parse(q).fields) {
      WholeRequest(q, tail, h.handlers, h.stamp, true, order, reorder, garbage);
    } else if Asked(h.handlers, q).Continued? && !(IsBody(q.last) && Ieof(q.first)) {
      WholePreview(q, tail, h.handlers, h.stamp, order, reorder, garbage);
    } else {
      PreviewOnly(q, tail, h.handlers, h.stamp, true, order, reorder, garbage);
    }
  }

  lemma ViewOffsets(q: Inquiry, tail: string, order: seq<Entity>, garbage: Garbage)
    requires WellFormed(q) && Sorts(order, Parse(q).fields.offsets)
    ensures LegalHeaders(q.headers)
    ensures
      var m := Parse(q).fields.offsets;
      && m == Announced(q.headers, q.last)
      && Updated(m, SectionsRead(order, m, In(MessageOctets(q, tail), true), EMPTY, garbage).0) ==
         FirstView(q).fields.offsets
  {
    assert LegalHeaders(q.headers);
    hide BlockRead, HeaderParsed, LinesAttached, LineParsed, OnWire, Announced, Sorts, WellFormed, LegalHeaders,
      Updated, SectionsRead, MessageOctets, Carried;
    HeaderArrives(q, tail);
    FirstSeen(q, tail, order, garbage);
  }

  // ----- When a connection is kept -----

  /** The last Connection field that is not dropped says exactly keep-alive. */
  ghost predicate SaysKeepAlive(fields: seq<Field>) {
    exists k :: LastKept(fields, "Connection", k) && fields[k].value == "keep-alive"
  }

  lemma {:induction false} SomeOrNoneKept(fields: seq<Field>, key: string) returns (k: int)
    ensures NoneKept(fields, key) || LastKept(fields, key, k)
  {
    hide Kept;
    k := |fields| - 1;
    while k >= 0 && !(fields[k].key == key && Kept(fields[k]))
      invariant -1 <= k < |fields|
      invariant forall j :: k < j < |fields| && fields[j].key == key ==> !Kept(fields[j])
    {
      k := k - 1;
    }
  }

  lemma KeepAliveSaid(fields: seq<Field>)
    ensures KeepAlive(FieldsAttached(NO_FIELDS, fields)) <==> SaysKeepAlive(fields)
  {
    hide FieldsAttached, LastKept, NoneKept;
    PlainFields(fields, "Connection");
    var k := SomeOrNoneKept(fields, "Connection");
    if NoneKept(fields, "Connection") {
      NoneOrLast(fields, "Connection");
    }
  }

  lemma NoneOrLast(fields: seq<Field>, key: string)
    requires NoneKept(fields, key)
    ensures forall k :: !LastKept(fields, key, k)
  {
  }

  /**
   After a request printed with these fields the connection has another turn, budget permitting,
   exactly if they say keep-alive.  Otherwise the final response goes out as it was given; if they
   do, it says keep-alive, whatever it said before, and nothing else changes.
   */
  lemma ConnectionByHeader(
    w: Worker, q: Inquiry, r: RequestLine, fields: seq<Field>, tail: string,
    garbage: Garbage, timedOut: nat -> bool, budget: nat, turns: seq<Turn>)
    requires Acceptable(w, q) && LegalRequestLine(r) && LegalFields(fields)
    requires q.top == RequestText(r) && q.lines == FieldLines(fields)
    requires w.Connection(In(OnWire(q, tail), true), true, garbage, timedOut, budget, turns)
    requires budget >= 2 && !timedOut(0)
    requires LegalHeaders(q.headers) && turns[0].Served? ==> TiesKept(q, turns[0].reorder)
    ensures |turns| > 1 <==> SaysKeepAlive(fields)
    ensures LegalHeaders(q.headers) && SentIn(turns[0]) != []
    ensures
      var (_, given) := WorkerAnswers(w, q);
      var sent := SentIn(turns[0])[|SentIn(turns[0])| - 1];
      if SaysKeepAlive(fields) then
        sent.status == given.status && sent.payload == given.payload && sent.encapsulated == given.encapsulated &&
        (KeySorted(given.fields) ==>
           forall f :: f in sent.fields <==>
             f == Field("Connection", "keep-alive") || (f in given.fields && f.key != "Connection"))
      else sent == given
  {
    hide OnWire, TiesKept, LegalHeaders, Parse, KeepAlive, SaysKeepAlive, WorkerAnswers, Follows, Processes,
      WellFormed, KeySorted, Worker.TurnFrom, FieldsAttached, FieldLines, RequestText, LeftBehind, ForConnection;
    WellFormedHeaders(q);
    assert w.Linked(In(OnWire(q, tail), true), true, garbage, timedOut, turns, 0);
    TurnAnswers(w, q, tail, garbage, turns[0]);
    PrintedLines(q, r, fields);
    KeepAliveSaid(fields);
    var (interim, given) := WorkerAnswers(w, q);
    if KeySorted(given.fields) {
      ConnectionSaid(given);
    }
    ConnectionKeeps(given);
  }

  lemma ConnectionKeeps(r: Response)
    ensures ForConnection(r, false) == r
    ensures
      var kept := ForConnection(r, true);
      kept.status == r.status && kept.encapsulated == r.encapsulated && kept.payload == r.payload
  {
  }

  // ----- Requests that are not read -----

  lemma NothingFollows(q: Inquiry, tail: string)
    requires LegalHeaders(q.headers) && EndsRequest(q.last)
    ensures MessageOctets(q, tail) == tail <==> OnlyHeader(q)
  {
    if OnlyHeader(q) {
      assert "" + ("" + ("" + tail)) == tail;
    } else {
      assert q.headers != [] ==> Texts(q.headers) != "" by {
        hide Encoding;
      }
      hide Texts, ChunksOctets, LastLine;
      assert |LastOctets(q.last, q.first)| > 0 || !IsBody(q.last);
      assert |MessageOctets(q, tail)| > |tail|;
    }
  }

  lemma LeftNothing(w: Worker, q: Inquiry, tail: string)
    requires LegalHeaders(q.headers) && EndsRequest(q.last)
    ensures LeftBehind(w, q, tail) == tail <==> ReadWhole(w, q)
  {
    hide MessageOctets, OnlyHeader, Processes;
    NothingFollows(q, tail);
    if !RestRead(q) {
      SecondNotEmpty(q);
    }
  }

  lemma SecondNotEmpty(q: Inquiry)
    requires q.second.Some?
    ensures SecondOctets(q) != ""
  {
    hide ChunksOctets, LastLine;
  }

  /**
   The stream is left at the end of a request in two cases exactly.  A handler processes it, and
   there is no second part or the body stays the last entity; or there is no handler, and nothing
   follows the header block.
   */
  lemma PlaceKept(w: Worker, q: Inquiry, tail: string, garbage: Garbage, t: Turn)
    requires Acceptable(w, q)
    requires w.TurnFrom(In(OnWire(q, tail), true), true, garbage, t) && t.Served?
    requires TiesKept(q, t.reorder)
    ensures Behind(t) == In(tail, true) <==> ReadWhole(w, q)
  {
    hide OnWire, TiesKept, LeftBehind, ReadWhole, Follows, WellFormed, Parse, LegalHeaders, Answers, Worker.TurnFrom;
    WellFormedHeaders(q);
    LeftNothing(w, q, tail);
    TurnAnswers(w, q, tail, garbage, t);
  }

  /**
   The next turn takes what is left for its header block: the sections of an OPTIONS request or one
   with an unknown method, or the second part of a preview.  If it reads like a request, it is
   answered as one.
   */
  lemma LeftoverAnswered(
    w: Worker, q: Inquiry, tail: string, garbage: Garbage, t: Turn, next: Turn, inner: Inquiry, rest: string)
    requires Acceptable(w, q)
    requires w.TurnFrom(In(OnWire(q, tail), true), true, garbage, t) && t.Served?
    requires TiesKept(q, t.reorder)
    requires w.TurnFrom(Behind(t), true, garbage, next) && next.Served?
    ensures next.header == HeaderParsed(BlockRead(In(LeftBehind(w, q, tail), true), "").0)
    ensures Acceptable(w, inner) && LeftBehind(w, q, tail) == OnWire(inner, rest) && TiesKept(inner, next.reorder) ==>
      Answers(w, inner, next) && Behind(next) == In(LeftBehind(w, inner, rest), true)
  {
    hide BlockRead, HeaderParsed, OnWire, TiesKept, LeftBehind, Follows, WellFormed, Parse, LegalHeaders, Answers,
      Worker.Serves;
    TurnAnswers(w, q, tail, garbage, t);
    if Acceptable(w, inner) {
      WellFormedHeaders(inner);
      if LeftBehind(w, q, tail) == OnWire(inner, rest) && TiesKept(inner, next.reorder) {
        TurnAnswers(w, inner, rest, garbage, next);
      }
    }
  }

  /** The octets of requests sent one after another. */
  function AllOnWire(qs: seq<Inquiry>, tail: string): string {
    if qs == [] then tail else OnWire(qs[0], AllOnWire(qs[1..], tail))
  }

  /** All requests are well-formed; all but the last ask to keep the connection, and the last does not. */
  ghost predicate Queue(w: Worker, qs: seq<Inquiry>) {
    && qs != []
    && (forall i :: 0 <= i < |qs| ==> Acceptable(w, qs[i]))
    && (forall i :: 0 <= i < |qs| ==> (KeepAlive(Parse(qs[i]).fields) <==> i < |qs| - 1))
  }

  lemma QueueNotEmpty(w: Worker, qs: seq<Inquiry>)
    requires Queue(w, qs)
    ensures qs != []
  {
  }

  /** How many requests are read whole before the first one that is not. */
  function InPlace(w: Worker, qs: seq<Inquiry>): (k: nat)
    ensures k <= |qs|
  {
    if qs == [] || !ReadWhole(w, qs[0]) then 0 else 1 + InPlace(w, qs[1..])
  }

  lemma {:induction false} InPlaceFirst(w: Worker, qs: seq<Inquiry>)
    ensures var k := InPlace(w, qs);
      && (forall i :: 0 <= i < k ==> ReadWhole(w, qs[i]))
      && (k < |qs| ==> !ReadWhole(w, qs[k]))
  {
    hide ReadWhole;
    if qs != [] && ReadWhole(w, qs[0]) {
      InPlaceFirst(w, qs[1..]);
      assert forall i :: 0 < i < |qs| ==> qs[i] == qs[1..][i - 1];
    }
  }

  lemma WireStep(qs: seq<Inquiry>, tail: string, i: nat)
    requires i < |qs|
    ensures AllOnWire(qs[i..], tail) == OnWire(qs[i], AllOnWire(qs[i + 1..], tail))
  {
    hide OnWire;
    assert qs[i..][1..] == qs[i + 1..];
  }

  /** The sorts treat equal offsets as assumed, as far as requests are met in place. */
  ghost predicate AllTiesKept(w: Worker, qs: seq<Inquiry>, turns: seq<Turn>) {
    forall i :: 0 <= i < |qs| && i < |turns| && i <= InPlace(w, qs) && turns[i].Served? ==>
      LegalHeaders(qs[i].headers) && TiesKept(qs[i], turns[i].reorder)
  }

  /** The turn that meets its request in place. */
  lemma TurnInPlace(
    w: Worker, qs: seq<Inquiry>, tail: string, garbage: Garbage, timedOut: nat -> bool, turns: seq<Turn>, i: nat)
    requires Queue(w, qs)
    requires w.Chained(In(AllOnWire(qs, tail), true), true, garbage, timedOut, turns)
    requires i < |turns| && i < |qs| && i <= InPlace(w, qs) && !timedOut(i)
    requires AllTiesKept(w, qs, turns)
    requires Ahead(In(AllOnWire(qs, tail), true), turns, i) == In(AllOnWire(qs[i..], tail), true)
    ensures Answers(w, qs[i], turns[i])
    ensures Ahead(In(AllOnWire(qs, tail), true), turns, i + 1) ==
            In(LeftBehind(w, qs[i], AllOnWire(qs[i + 1..], tail)), true)
  {
    hide Acceptable, TiesKept, Answers, OnWire, AllOnWire, Parse, Worker.TurnFrom, KeepAlive, LegalHeaders,
      LeftBehind, InPlace;
    WireStep(qs, tail, i);
    assert w.Linked(In(AllOnWire(qs, tail), true), true, garbage, timedOut, turns, i);
    assert Acceptable(w, qs[i]);
    hide Worker.Chained;
    TurnAnswers(w, qs[i], AllOnWire(qs[i + 1..], tail), garbage, turns[i]);
  }

  lemma {:induction false} TurnsFollow(
    w: Worker, qs: seq<Inquiry>, tail: string, garbage: Garbage, timedOut: nat -> bool, turns: seq<Turn>, n: nat)
    requires Queue(w, qs)
    requires w.Chained(In(AllOnWire(qs, tail), true), true, garbage, timedOut, turns)
    requires forall i :: 0 <= i < |qs| ==> !timedOut(i)
    requires AllTiesKept(w, qs, turns)
    requires n <= |turns| && n <= InPlace(w, qs)
    ensures Ahead(In(AllOnWire(qs, tail), true), turns, n) == In(AllOnWire(qs[n..], tail), true)
    ensures forall i :: 0 <= i < n ==> Answers(w, qs[i], turns[i])
  {
    hide Queue, AllTiesKept, AllOnWire, Answers, Worker.Chained, LegalHeaders, ReadWhole, LeftBehind, InPlace;
    if n == 0 {
      assert qs[0..] == qs;
    } else {
      TurnsFollow(w, qs, tail, garbage, timedOut, turns, n - 1);
      TurnInPlace(w, qs, tail, garbage, timedOut, turns, n - 1);
      InPlaceFirst(w, qs);
      LeftWhole(w, qs, AllOnWire(qs[n..], tail), n - 1);
    }
  }

  lemma LeftWhole(w: Worker, qs: seq<Inquiry>, rest: string, i: nat)
    requires Queue(w, qs) && i < |qs| && ReadWhole(w, qs[i])
    ensures LeftBehind(w, qs[i], rest) == rest
  {
    assert Acceptable(w, qs[i]);
    hide LeftBehind, ReadWhole, Follows;
    WellFormedHeaders(qs[i]);
    LeftNothing(w, qs[i], rest);
  }

  /** The octets of the replies to one request after another. */
  ghost function RepliesOctets(w: Worker, qs: seq<Inquiry>): string
    requires forall i :: 0 <= i < |qs| ==> LegalHeaders(qs[i].headers)
  {
    if qs == [] then ""
    else RepliesOctets(w, qs[..|qs| - 1]) + ResponsesOctets(Replies(w, qs[|qs| - 1]))
  }

  /** What a client receives whose requests are answered is determined by the requests. */
  lemma {:induction false} OutputIsReplies(w: Worker, qs: seq<Inquiry>, turns: seq<Turn>)
    requires |qs| == |turns| && forall i :: 0 <= i < |turns| ==> Answers(w, qs[i], turns[i])
    ensures forall i :: 0 <= i < |qs| ==> LegalHeaders(qs[i].headers)
    ensures Output(turns) == RepliesOctets(w, qs)
  {
    hide SentIn, Replies, LegalHeaders, ResponsesOctets, Parse;
    forall i | 0 <= i < |qs|
      ensures LegalHeaders(qs[i].headers)
    {
      assert Answers(w, qs[i], turns[i]);
    }
    if qs != [] {
      var n := |qs| - 1;
      OutputIsReplies(w, qs[..n], turns[..n]);
      assert Answers(w, qs[n], turns[n]);
    }
  }

  /**
   A client sends requests one after another, all but the last asking to keep the connection.  It
   gets the answers to its requests in order, each from its own request, up to and including the
   first one that the worker does not read whole; if there is none before the last, there are no
   more turns than requests, and nothing of what follows the requests answered is read.  After
   that one, what is left of it is taken for the next header block.
   */
  lemma Pipelined(
    w: Worker, qs: seq<Inquiry>, tail: string, garbage: Garbage, timedOut: nat -> bool, budget: nat, turns: seq<Turn>)
    requires Queue(w, qs)
    requires w.Connection(In(AllOnWire(qs, tail), true), true, garbage, timedOut, budget, turns)
    requires forall i :: 0 <= i < |qs| ==> !timedOut(i)
    requires AllTiesKept(w, qs, turns)
    ensures
      var k := InPlace(w, qs);
      && (forall i :: 0 <= i < |turns| && i < |qs| && i <= k ==> Answers(w, qs[i], turns[i]))
      && (|qs| - 1 <= k ==> |turns| == if budget < |qs| then budget else |qs|)
      && (k < |qs| - 1 ==> |turns| >= if budget < k + 2 then budget else k + 2)
      && (|turns| <= k ==>
          Ahead(In(AllOnWire(qs, tail), true), turns, |turns|) == In(AllOnWire(qs[|turns|..], tail), true))
      && (k < |turns| && k < |qs| ==>
          var left := In(LeftBehind(w, qs[k], AllOnWire(qs[k + 1..], tail)), true);
          && Ahead(In(AllOnWire(qs, tail), true), turns, k + 1) == left
          && (k + 1 < |turns| && turns[k + 1].Served? ==> turns[k + 1].header == HeaderParsed(BlockRead(left, "").0)))
  {
    var k, s := InPlace(w, qs), In(AllOnWire(qs, tail), true);
    hide Queue, AllTiesKept, AllOnWire, Answers, Worker.Chained, LegalHeaders, InPlace, GoesOn, HeaderParsed,
      BlockRead, MessageOctets, OnlyHeader, Processes, Ahead, ReadWhole, LeftBehind, Acceptable;
    QueueNotEmpty(w, qs);
    var n := if |turns| < k then |turns| else k;
    TurnsFollow(w, qs, tail, garbage, timedOut, turns, n);
    if k < |turns| && k < |qs| {
      TurnInPlace(w, qs, tail, garbage, timedOut, turns, k);
      if k + 1 < |turns| && turns[k + 1].Served? {
        NextHeader(w, s, garbage, timedOut, turns, k + 1);
      }
    }
    forall i | 0 <= i < |turns| && i < |qs| && i <= k
      ensures GoesOn(turns[i]) <==> i < |qs| - 1
    {
      AnswerGoesOn(w, qs, turns[i], i);
    }
    if |turns| < |qs| && |turns| - 1 <= k {
      assert GoesOn(turns[|turns| - 1]);
    } else if |qs| - 1 <= k {
      assert !GoesOn(turns[|qs| - 1]);
    }
  }

  lemma NextHeader(
    w: Worker, s: In, garbage: Garbage, timedOut: nat -> bool, turns: seq<Turn>, i: nat)
    requires w.Chained(s, true, garbage, timedOut, turns) && i < |turns| && turns[i].Served?
    ensures turns[i].header == HeaderParsed(BlockRead(Ahead(s, turns, i), "").0)
  {
    hide HeaderParsed, BlockRead, Worker.Serves;
    assert w.Linked(s, true, garbage, timedOut, turns, i);
  }

  lemma AnswerGoesOn(w: Worker, qs: seq<Inquiry>, t: Turn, i: nat)
    requires Queue(w, qs) && i < |qs| && Answers(w, qs[i], t)
    ensures GoesOn(t) <==> i < |qs| - 1
  {
    hide Acceptable, KeepAlive, Parse;
  }
}
