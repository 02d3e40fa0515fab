/**
 A worker process: it serves clients until its request budget is used up
 (`Worker::run`, `Worker::serve_client`).
 */
module Worker {
  import opened Octets
  import opened Wire
  import opened Chunked
  import opened Encapsulated
  import opened Message
  import opened Framing
  import opened RequestHeaders
  import opened Responses
  import opened Handler

  /**
   One turn of the loop of `serve_client`.  A turn that serves a request records the header it
   read, how the sorts ordered the entities, and what became of the request.
   */
  datatype Turn =
    | TimedOut(left: In)
    | Served(header: Parsed, order: seq<Entity>, reorder: seq<Entity>, done: Processed)

  /** The stream behind a turn. */
  function Behind(t: Turn): In {
    match t
    case TimedOut(left) => left
    case Served(_, _, _, done) => done.stream
  }

  /** The stream before the `i`-th turn. */
  function Ahead(s: In, turns: seq<Turn>, i: nat): In
    requires i <= |turns|
  {
    if i == 0 then s else Behind(turns[i - 1])
  }

  /** The request asks to keep the connection. */
  predicate KeepAlive(f: Fields) {
    "Connection" in f.headers && f.headers["Connection"] == "keep-alive"
  }

  /** The connection goes on after this turn, if there is budget. */
  predicate GoesOn(t: Turn) {
    t.Served? && KeepAlive(t.header.fields)
  }

  /** Responses as they are sent: the last one says whether the connection is kept. */
  function OnConnection(interim: Option<Response>, last: Response, keep: bool): seq<Response> {
    (if interim.Some? then [interim.value] else []) + [ForConnection(last, keep)]
  }

  /** The responses sent in a turn. */
  function SentIn(t: Turn): seq<Response> {
    match t
    case TimedOut(_) => []
    case Served(header, _, _, done) => OnConnection(done.interim, done.response, KeepAlive(header.fields))
  }

  function ResponsesOctets(rs: seq<Response>): string {
    if rs == [] then "" else ResponsesOctets(rs[..|rs| - 1]) + ResponseOctets(rs[|rs| - 1])
  }

  /** What a client receives. */
  function Output(turns: seq<Turn>): string {
    if turns == [] then "" else Output(turns[..|turns| - 1]) + ResponsesOctets(SentIn(turns[|turns| - 1]))
  }

  lemma OutputGrows(turns: seq<Turn>, t: Turn, before: string)
    ensures before + Output(turns) + ResponsesOctets(SentIn(t)) == before + Output(turns + [t])
  {
    hide SentIn, ResponsesOctets;
    assert (turns + [t])[..|turns|] == turns;
    Associative(before, Output(turns), ResponsesOctets(SentIn(t)));
  }

  lemma OneResponse(rs: seq<Response>, r: Response)
    ensures ResponsesOctets(rs + [r]) == ResponsesOctets(rs) + ResponseOctets(r)
    ensures rs == [] ==> ResponsesOctets([r]) == ResponseOctets(r)
  {
    hide ResponseOctets;
    assert (rs + [r])[..|rs|] == rs;
    if rs == [] {
      assert rs + [r] == [r];
      assert "" + ResponseOctets(r) == ResponseOctets(r);
    }
  }

  lemma ExchangeOctets(before: string, interim: Option<Response>, last: Response, keep: bool)
    ensures
      var sent := if interim.Some? then ResponseOctets(interim.value) else "";
      before + sent + ResponseOctets(ForConnection(last, keep)) ==
      before + ResponsesOctets(OnConnection(interim, last, keep))
  {
    hide ResponseOctets, ForConnection;
    var final := ForConnection(last, keep);
    OneResponse([], final);
    if interim.Some? {
      OneResponse([], interim.value);
      OneResponse([interim.value], final);
      Associative(before, ResponseOctets(interim.value), ResponseOctets(final));
    } else {
      assert before + "" == before;
      assert [] + [final] == [final];
    }
  }

  class Worker {
    /** Handlers by method name; OPTIONS is answered from `options`. */
    const handlers: map<string, RequestHandler>
    const options: Response
    const stamp: Stamp

    constructor (handlers: map<string, RequestHandler>, options: Response, stamp: Stamp)
      ensures this.handlers == handlers && this.options == options && this.stamp == stamp
    {
      this.handlers, this.options, this.stamp := handlers, options, stamp;
    }

    /**
     What becomes of a request: a handler processes it, OPTIONS and unknown methods are answered
     without reading on.
     */
    ghost predicate Serves(
      header: Parsed, s: In, writable: bool, garbage: Garbage,
      order: seq<Entity>, reorder: seq<Entity>, done: Processed)
    {
      var m := header.fields.offsets;
      if header.line.verb == "OPTIONS" then done == Processed(options, None, None, s)
      else if header.line.verb in handlers then
        var h := handlers[header.line.verb];
        && Sorts(order, m)
        && reorder != [] && Sorts(reorder, Updated(m, SectionsRead(order, m, s, EMPTY, garbage).0))
        && done == Handled(h.handlers, h.stamp, header, s, writable, order, reorder, garbage)
      else done == Processed(NewResponse(stamp, NOT_ALLOWED), None, None, s)
    }

    /** The turn that starts on the stream `s`: the next header block, and what it leads to. */
    ghost predicate TurnFrom(s: In, writable: bool, garbage: Garbage, t: Turn) {
      var (raw, rest) := BlockRead(s, "");
      match t
      case TimedOut(left) => left == rest
      case Served(header, order, reorder, done) =>
        header == HeaderParsed(raw) && Serves(header, rest, writable, garbage, order, reorder, done)
    }

    /** Each turn starts where the one before it left the stream, and times out as `timedOut` says. */
    ghost predicate Chained(s: In, writable: bool, garbage: Garbage, timedOut: nat -> bool, turns: seq<Turn>) {
      forall i :: 0 <= i < |turns| ==> Linked(s, writable, garbage, timedOut, turns, i)
    }

    ghost predicate Linked(
      s: In, writable: bool, garbage: Garbage, timedOut: nat -> bool, turns: seq<Turn>, i: nat)
      requires i < |turns|
    {
      TurnFrom(Ahead(s, turns, i), writable, garbage, turns[i]) && (turns[i].TimedOut? <==> timedOut(i))
    }

    /**
     A whole connection: the turns follow from the stream, one goes on into the next, and the last
     one is the first that does not go on, or the budget is used up.
     */
    ghost predicate Connection(
      s: In, writable: bool, garbage: Garbage, timedOut: nat -> bool, budget: nat, turns: seq<Turn>)
    {
      && 1 <= |turns| <= budget
      && Chained(s, writable, garbage, timedOut, turns)
      && (forall i :: 0 <= i < |turns| - 1 ==> GoesOn(turns[i]))
      && (|turns| == budget || !GoesOn(turns[|turns| - 1]))
    }

    lemma EmptyChain(s: In, writable: bool, garbage: Garbage, timedOut: nat -> bool)
      ensures Chained(s, writable, garbage, timedOut, [])
    {
    }

    lemma ChainGrows(s: In, writable: bool, garbage: Garbage, timedOut: nat -> bool, turns: seq<Turn>, t: Turn)
      requires Chained(s, writable, garbage, timedOut, turns)
      requires TurnFrom(Ahead(s, turns, |turns|), writable, garbage, t)
      requires t.TimedOut? <==> timedOut(|turns|)
      ensures Chained(s, writable, garbage, timedOut, turns + [t])
    {
      hide TurnFrom;
      var more := turns + [t];
      forall i | 0 <= i < |more|
        ensures Linked(s, writable, garbage, timedOut, more, i)
      {
        assert Ahead(s, more, i) == Ahead(s, turns, i);
        if i < |turns| {
          assert Linked(s, writable, garbage, timedOut, turns, i);
        }
      }
    }

    /** The part of `serve_client` that finds a handler and gets its response. */
    method Respond(header: RequestHeader, client: Socket)
      returns (response: Response, ghost order: seq<Entity>, ghost reorder: seq<Entity>, ghost done: Processed)
      modifies header.header`encapsulated, client`unread, client`good, client`output
      ensures
        var parsed := Parsed(header.request, old(header.header.State()));
        Serves(parsed, old(client.Incoming()), client.writable, client.stale, order, reorder, done)
      ensures response == done.response && client.Incoming() == done.stream
      ensures done.interim.Some? ==> client.writable
      ensures client.output ==
              old(client.output) + if done.interim.Some? then ResponseOctets(done.interim.value) else ""
      ensures header.header.headers == old(header.header.headers)
    {
      hide ResponseOctets, Handled, Updated, SectionsRead, Sorts;
      ghost var parsed, s := Parsed(header.request, header.header.State()), client.Incoming();
      if header.request.verb == "OPTIONS" {
        response := options;
      } else if header.request.verb in handlers {
        var h := handlers[header.request.verb];
        ghost var sent;
        response, order, reorder, sent := h.Process(header, client);
        done := Handled(h.handlers, h.stamp, parsed, s, client.writable, order, reorder, client.stale);
        InterimWritten(h.handlers, h.stamp, parsed, s, client.writable, order, reorder, client.stale);
        return;
      } else {
        response := NewResponse(stamp, NOT_ALLOWED);
      }
      order, reorder := [], [];
      done := Processed(response, None, None, s);
    }

    /** The rest of one turn, once the header has been read: a response is found and sent. */
    method ServeRequest(header: RequestHeader, client: Socket) returns (keepAlive: bool, ghost t: Turn)
      modifies header.header`encapsulated, client`unread, client`good, client`output
      ensures t.Served? && t.header == Parsed(header.request, old(header.header.State()))
      ensures Serves(t.header, old(client.Incoming()), client.writable, client.stale, t.order, t.reorder, t.done)
      ensures client.Incoming() == Behind(t)
      ensures keepAlive == GoesOn(t)
      ensures client.output == old(client.output) + if client.writable then ResponsesOctets(SentIn(t)) else ""
    {
      hide ResponseOctets, ResponsesOctets, Serves, Put;
      ghost var parsed := Parsed(header.request, header.header.State());
      ghost var order, reorder, done;
      var response;
      response, order, reorder, done := Respond(header, client);
      keepAlive := header.header.Value("Connection") == "keep-alive";
      if keepAlive {
        response := response.(fields := Put(response.fields, Field("Connection", "keep-alive")));
      }
      var _ := SendResponse(response, client);
      t := Served(parsed, order, reorder, done);
      ExchangeOctets(old(client.output), done.interim, done.response, keepAlive);
    }

    /**
     `serve_client`, for a client whose reads time out as `timedOut` says.  It serves a whole
     connection and takes one request off the budget for each turn.
     */
    method ServeClient(client: Socket, budget: Word, timedOut: nat -> bool)
      returns (left: Word, ghost turns: seq<Turn>)
      requires budget > 0
      modifies client`unread, client`good, client`output
      ensures left == budget - |turns| < budget
      ensures Connection(old(client.Incoming()), client.writable, client.stale, timedOut, budget, turns)
      ensures client.Incoming() == Ahead(old(client.Incoming()), turns, |turns|)
      ensures client.output == old(client.output) + if client.writable then Output(turns) else ""
    {
      hide HeaderParsed, BlockRead, Serves, Output, SentIn, ResponsesOctets, KeepAlive, Chained;
      ghost var s, out := client.Incoming(), client.output;
      left, turns := budget, [];
      EmptyOutput();
      EmptyChain(s, client.writable, client.stale, timedOut);
      var n := 0;
      while true
        invariant n == |turns| && left == budget - n > 0
        invariant Chained(s, client.writable, client.stale, timedOut, turns)
        invariant forall i :: 0 <= i < |turns| ==> GoesOn(turns[i])
        invariant client.Incoming() == Ahead(s, turns, n)
        invariant client.output == out + if client.writable then Output(turns) else ""
        decreases left
      {
        var header := ReadReqHeader(client);
        if timedOut(n) {
          ghost var t := TimedOut(client.Incoming());
          OutputGrows(turns, t, out);
          QuietTurn(client.Incoming(), out + Output(turns));
          ChainGrows(s, client.writable, client.stale, timedOut, turns, t);
          turns := turns + [t];
          left := left - 1;
          return;
        }
        var keepAlive;
        ghost var t;
        keepAlive, t := ServeRequest(header, client);
        OutputGrows(turns, t, out);
        ChainGrows(s, client.writable, client.stale, timedOut, turns, t);
        turns := turns + [t];
        left := left - 1;
        n := n + 1;
        if !(left > 0 && keepAlive) {
          break;
        }
      }
    }

    /**
     `run`: `connections` are the outcomes of successive calls of `accept`, null for a failure.
     The budget is used up exactly by failures to accept and turns; each connection accepted is
     served as a whole, with what the ones before it left of the budget; no other is touched.
     */
    method Run(connections: seq<Socket?>, budget: Word, timedOut: nat -> (nat -> bool))
      returns (ghost log: seq<Accepted>)
      requires budget <= |connections|
      requires forall i, j :: 0 <= i < j < |connections| && connections[i] != null ==> connections[i] != connections[j]
      modifies set s: Socket | s in connections
      ensures |log| <= |connections| && Spent(log) == budget
      ensures forall i :: 0 <= i < |log| ==> (log[i].Failed? <==> connections[i] == null)
      ensures forall i :: 0 <= i < |log| && connections[i] != null ==>
        && Spent(log[..i]) < budget
        && Connection(old(connections[i].Incoming()), connections[i].writable, connections[i].stale, timedOut(i),
             budget - Spent(log[..i]), log[i].turns)
        && connections[i].output ==
           old(connections[i].output) + if connections[i].writable then Output(log[i].turns) else ""
      ensures forall i :: |log| <= i < |connections| && connections[i] != null ==>
        && connections[i].Incoming() == old(connections[i].Incoming())
        && connections[i].output == old(connections[i].output)
    {
      hide Connection, Output, Spent;
      log := [];
      EmptySpent();
      var left: Word, n := budget, 0;
      while left > 0
        invariant n == |log| && n + left <= |connections|
        invariant Spent(log) == budget - left
        invariant forall i :: 0 <= i < n ==> (log[i].Failed? <==> connections[i] == null)
        invariant forall i :: 0 <= i < n && connections[i] != null ==>
          && Spent(log[..i]) < budget
          && Connection(old(connections[i].Incoming()), connections[i].writable, connections[i].stale, timedOut(i),
               budget - Spent(log[..i]), log[i].turns)
          && connections[i].output ==
             old(connections[i].output) + if connections[i].writable then Output(log[i].turns) else ""
        invariant forall i :: n <= i < |connections| && connections[i] != null ==>
          && connections[i].Incoming() == old(connections[i].Incoming())
          && connections[i].output == old(connections[i].output)
      {
        var client := connections[n];
        ghost var accepted := Failed;
        if client == null {
          left := left - 1;
        } else {
          ghost var turns;
          left, turns := ServeClient(client, left, timedOut(n));
          accepted := Client(turns);
        }
        SpentGrows(log, accepted);
        assert (log + [accepted])[..n] == log;
        assert forall i :: 0 <= i < n ==> (log + [accepted])[..i] == log[..i];
        log := log + [accepted];
        n := n + 1;
      }
    }
  }

  lemma EmptyOutput()
    ensures Output([]) == ""
  {
  }

  lemma QuietTurn(left: In, before: string)
    ensures before + ResponsesOctets(SentIn(TimedOut(left))) == before
  {
  }

  /** What became of one call of `accept`. */
  datatype Accepted = Failed | Client(turns: seq<Turn>)

  function Cost(a: Accepted): nat {
    if a.Failed? then 1 else |a.turns|
  }

  function Spent(log: seq<Accepted>): nat {
    if log == [] then 0 else Spent(log[..|log| - 1]) + Cost(log[|log| - 1])
  }

  lemma EmptySpent()
    ensures Spent([]) == 0
  {
  }

  lemma SpentGrows(log: seq<Accepted>, a: Accepted)
    ensures Spent(log + [a]) == Spent(log) + Cost(a)
  {
    assert (log + [a])[..|log|] == log;
  }

  /** A failure to accept costs one request, a connection one for each turn; a log costs what its parts do. */
  lemma {:induction false} SpentTogether(a: seq<Accepted>, b: seq<Accepted>, turns: seq<Turn>)
    ensures Spent([Failed]) == 1 && Spent([Client(turns)]) == |turns|
    ensures Spent(a + b) == Spent(a) + Spent(b)
    decreases |b|
  {
    assert [Failed][..0] == [] && [Client(turns)][..0] == [];
    if b == [] {
      assert a + b == a;
    } else {
      var n := |b| - 1;
      SpentTogether(a, b[..n], turns);
      assert (a + b)[..|a| + n] == a + b[..n];
    }
  }
}
