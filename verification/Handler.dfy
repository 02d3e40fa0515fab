/**
 Request processing: `RequestHandler::process` with its preview and modify
 phases (section 4.5 of RFC 3507).

 Modifier modules are arbitrary: whatever they answer to a request, the
 statements below hold.
 */
module Handler {
  import opened Octets
  import opened Numerals
  import opened Text
  import opened Wire
  import opened Chunked
  import opened Encapsulated
  import opened Message
  import opened RequestHeaders
  import opened Responses

  /** What a modifier sees of a request. */
  datatype View = View(line: RequestLine, fields: Fields, payload: Payload)

  /** A configured module: whether it was loaded, and how it answers. */
  datatype Modifier = Modifier(loaded: bool, onPreview: View -> Response, onModify: View -> Response)

  function ServerError(stamp: Stamp): Response {
    NewResponse(stamp, SERVER_ERROR)
  }

  // ----- The modify phase -----

  /** The outcome of `process_modify`; None is NULL. */
  function Modified(handlers: seq<Modifier>, v: View): Option<Response> {
    if handlers == [] then None
    else if !handlers[0].loaded then Modified(handlers[1..], v)
    else
      var r := handlers[0].onModify(v);
      var later := Modified(handlers[1..], v);
      if r.status == OK || later.None? then Some(r) else later
  }

  /** No loaded handler among the first `k` answers OK. */
  ghost predicate NoOkBefore(handlers: seq<Modifier>, v: View, k: nat) {
    forall i :: 0 <= i < k && i < |handlers| && handlers[i].loaded ==> handlers[i].onModify(v).status != OK
  }

  /** `process_modify` returns the first OK answer. */
  lemma {:induction false} FirstOkWins(handlers: seq<Modifier>, v: View, k: nat)
    requires k < |handlers| && handlers[k].loaded && handlers[k].onModify(v).status == OK
    requires NoOkBefore(handlers, v, k)
    ensures Modified(handlers, v) == Some(handlers[k].onModify(v))
    decreases k
  {
    if k > 0 {
      var rest := handlers[1..];
      assert NoOkBefore(rest, v, k - 1) by {
        assert forall i :: 0 <= i < |rest| ==> rest[i] == handlers[i + 1];
      }
      FirstOkWins(rest, v, k - 1);
    }
  }

  /** Without an OK it returns the answer of the last loaded handler. */
  lemma {:induction false} LastLoadedWins(handlers: seq<Modifier>, v: View, k: nat)
    requires IsLastLoaded(handlers, k) && NoOkBefore(handlers, v, |handlers|)
    ensures Modified(handlers, v) == Some(handlers[k].onModify(v))
    decreases k
  {
    var rest := handlers[1..];
    assert forall i :: 0 <= i < |rest| ==> rest[i] == handlers[i + 1];
    if k > 0 {
      LastLoadedWins(rest, v, k - 1);
    } else {
      NullWhenNoneLoaded(rest, v);
    }
  }

  /** It returns NULL exactly when no handler is loaded. */
  lemma {:induction false} NullWhenNoneLoaded(handlers: seq<Modifier>, v: View)
    ensures Modified(handlers, v).None? <==> forall i :: 0 <= i < |handlers| ==> !handlers[i].loaded
  {
    if handlers != [] {
      var rest := handlers[1..];
      NullWhenNoneLoaded(rest, v);
      assert forall i :: 0 < i < |handlers| ==> handlers[i] == rest[i - 1];
    }
  }

  /** The modify phase ends in a 100 Continue: nobody answers OK, and the last loaded handler answers that. */
  ghost predicate EndsInContinue(handlers: seq<Modifier>, v: View) {
    && NoOkBefore(handlers, v, |handlers|)
    && exists k :: IsLastLoaded(handlers, k) && handlers[k].onModify(v).status == CONTINUE
  }

  ghost predicate IsLastLoaded(handlers: seq<Modifier>, k: int) {
    0 <= k < |handlers| && handlers[k].loaded && forall i :: k < i < |handlers| ==> !handlers[i].loaded
  }

  /** `process_modify` does not look for a 100 Continue: it returns one exactly if the modifiers end in one. */
  lemma ContinueReturned(handlers: seq<Modifier>, v: View)
    ensures
      var r := Modified(handlers, v);
      r.Some? && r.value.status == CONTINUE <==> EndsInContinue(handlers, v)
  {
    hide Modified;
    NullWhenNoneLoaded(handlers, v);
    if Modified(handlers, v).Some? {
      var k := LastLoaded(handlers);
      if NoOkBefore(handlers, v, |handlers|) {
        LastLoadedWins(handlers, v, k);
      } else {
        var i := FirstOk(handlers, v);
        FirstOkWins(handlers, v, i);
      }
    }
  }

  lemma {:induction false} LastLoaded(handlers: seq<Modifier>) returns (k: nat)
    requires exists i :: 0 <= i < |handlers| && handlers[i].loaded
    ensures IsLastLoaded(handlers, k)
  {
    k := |handlers| - 1;
    while !handlers[k].loaded
      decreases k
      invariant 0 <= k < |handlers|
      invariant forall i :: k < i < |handlers| ==> !handlers[i].loaded
    {
      k := k - 1;
    }
  }

  lemma {:induction false} FirstOk(handlers: seq<Modifier>, v: View) returns (k: nat)
    requires !NoOkBefore(handlers, v, |handlers|)
    ensures k < |handlers| && handlers[k].loaded && handlers[k].onModify(v).status == OK
    ensures NoOkBefore(handlers, v, k)
  {
    k := 0;
    while !(handlers[k].loaded && handlers[k].onModify(v).status == OK)
      decreases |handlers| - k
      invariant k < |handlers| && NoOkBefore(handlers, v, k)
    {
      k := k + 1;
    }
  }

  // ----- The preview phase -----

  /** How the preview ends: with a response or NULL, or with a module's 100 Continue. */
  datatype Verdict = Answered(response: Option<Response>) | Continued(response100: Response)

  /** The loop of `process_preview`, up to the call of `preview_continue`. */
  function PreviewVerdict(handlers: seq<Modifier>, v: View, before: Option<Response>): (verdict: Verdict)
    ensures verdict.Continued? ==> verdict.response100.status == CONTINUE
    ensures verdict.Answered? && verdict.response.Some? && !(before.Some? && before.value.status == CONTINUE) ==>
      verdict.response.value.status != CONTINUE
  {
    if handlers == [] then Answered(before)
    else if !handlers[0].loaded then PreviewVerdict(handlers[1..], v, before)
    else
      var r := handlers[0].onPreview(v);
      if r.status == NO_CONTENT || r.status == OK then Answered(Some(r))
      else if r.status == CONTINUE then Continued(r)
      else PreviewVerdict(handlers[1..], v, Some(r))
  }

  predicate Decides(r: Response) {
    r.status == OK || r.status == NO_CONTENT || r.status == CONTINUE
  }

  /** No loaded handler among the first `k` decides the preview. */
  ghost predicate UndecidedBefore(handlers: seq<Modifier>, v: View, k: nat) {
    forall i :: 0 <= i < k && i < |handlers| && handlers[i].loaded ==> !Decides(handlers[i].onPreview(v))
  }

  /** The first loaded handler that says OK, no content or continue decides the preview. */
  lemma {:induction false} FirstDecides(handlers: seq<Modifier>, v: View, before: Option<Response>, k: nat)
    requires k < |handlers| && handlers[k].loaded && Decides(handlers[k].onPreview(v))
    requires UndecidedBefore(handlers, v, k)
    ensures
      var r := handlers[k].onPreview(v);
      PreviewVerdict(handlers, v, before) == if r.status == CONTINUE then Continued(r) else Answered(Some(r))
    decreases k
  {
    if k > 0 {
      var rest := handlers[1..];
      assert forall i :: 0 <= i < |rest| ==> rest[i] == handlers[i + 1];
      FirstDecides(rest, v, if handlers[0].loaded then Some(handlers[0].onPreview(v)) else before, k - 1);
    }
  }

  /** If none decides, the last loaded handler's answer stands, and NULL if there is none. */
  lemma {:induction false} UndecidedPreview(handlers: seq<Modifier>, v: View, before: Option<Response>)
    requires UndecidedBefore(handlers, v, |handlers|)
    ensures forall k :: IsLastLoaded(handlers, k) ==>
      PreviewVerdict(handlers, v, before) == Answered(Some(handlers[k].onPreview(v)))
    ensures (forall i :: 0 <= i < |handlers| ==> !handlers[i].loaded) ==>
      PreviewVerdict(handlers, v, before) == Answered(before)
  {
    if handlers != [] {
      var rest := handlers[1..];
      assert forall i :: 0 <= i < |rest| ==> rest[i] == handlers[i + 1];
      UndecidedPreview(rest, v, if handlers[0].loaded then Some(handlers[0].onPreview(v)) else before);
      forall k | IsLastLoaded(handlers, k)
        ensures PreviewVerdict(handlers, v, before) == Answered(Some(handlers[k].onPreview(v)))
      {
        if k > 0 {
          assert IsLastLoaded(rest, k - 1);
        }
      }
    }
  }

  /** The first loaded handler that decides the preview asks to continue. */
  ghost predicate AsksToContinue(handlers: seq<Modifier>, v: View) {
    exists k :: 0 <= k < |handlers| && handlers[k].loaded && UndecidedBefore(handlers, v, k)
      && handlers[k].onPreview(v).status == CONTINUE
  }

  ghost predicate NoneLoaded(handlers: seq<Modifier>) {
    forall i :: 0 <= i < |handlers| ==> !handlers[i].loaded
  }

  /** When the preview asks to continue, and when it comes to nothing. */
  lemma PreviewOutcome(handlers: seq<Modifier>, v: View)
    ensures PreviewVerdict(handlers, v, None).Continued? <==> AsksToContinue(handlers, v)
    ensures PreviewVerdict(handlers, v, None) == Answered(None) <==> NoneLoaded(handlers)
  {
    hide PreviewVerdict;
    if UndecidedBefore(handlers, v, |handlers|) {
      UndecidedPreview(handlers, v, None);
      if !NoneLoaded(handlers) {
        var k := LastLoaded(handlers);
      }
    } else {
      var k := FirstDecided(handlers, v);
      FirstDecides(handlers, v, None, k);
    }
  }

  lemma {:induction false} FirstDecided(handlers: seq<Modifier>, v: View) returns (k: nat)
    requires !UndecidedBefore(handlers, v, |handlers|)
    ensures k < |handlers| && handlers[k].loaded && Decides(handlers[k].onPreview(v))
    ensures UndecidedBefore(handlers, v, k)
  {
    k := 0;
    while !(handlers[k].loaded && Decides(handlers[k].onPreview(v)))
      decreases |handlers| - k
      invariant k < |handlers| && UndecidedBefore(handlers, v, k)
    {
      k := k + 1;
    }
  }

  /** `preview_size`: -1 without a Preview header. */
  function PreviewSize(fields: Fields): int {
    if "Preview" in fields.headers && fields.headers["Preview"] != "" then Atoi(fields.headers["Preview"]) else -1
  }

  /** The value starts, after white space, with a number below zero. */
  ghost predicate Negative(value: string) {
    exists spaces, digits, rest ::
      && value == spaces + ("-" + (digits + rest))
      && Spaces(spaces) && BelowZero(digits, rest)
  }

  ghost predicate BelowZero(digits: string, rest: string) {
    && (forall k :: 0 <= k < |digits| ==> IsDigit(digits[k], 10))
    && (rest != "" ==> !IsDigit(rest[0], 10))
    && Value(digits, 10) > 0
  }

  /** A request asks for a preview if its Preview header is there, not empty, and not below zero. */
  ghost predicate Previews(fields: Fields) {
    "Preview" in fields.headers && fields.headers["Preview"] != "" && !Negative(fields.headers["Preview"])
  }

  lemma NegativeRead(value: string)
    ensures Atoi(value) < 0 <==> Negative(value)
  {
    hide Value, IsDigit, IsSpace, Atoi;
    if Atoi(value) < 0 {
      var spaces, digits, rest := NegativeApart(value);
      assert Spaces(spaces) && BelowZero(digits, rest);
    }
    if spaces, digits, rest :|
      value == spaces + ("-" + (digits + rest)) && Spaces(spaces) && BelowZero(digits, rest) {
      AtoiRead(spaces, "-", digits, rest);
    }
  }

  /** That is when `preview_size` is not negative. */
  lemma PreviewsRead(fields: Fields)
    ensures PreviewSize(fields) >= 0 <==> Previews(fields)
  {
    hide Atoi, Negative;
    if "Preview" in fields.headers {
      NegativeRead(fields.headers["Preview"]);
    }
  }

  /** Any printed size will do, 0 included. */
  lemma PrintedSizePreviews(fields: Fields, n: nat)
    requires "Preview" in fields.headers && fields.headers["Preview"] == Itoa(n)
    ensures Previews(fields)
  {
    hide Atoi, Negative, Print;
    AtoiRoundTrip(n);
    NegativeRead(Itoa(n));
    PrintValue(n, 10);
  }

  // ----- The answers, whatever computes them -----

  /** The codes that decide a preview. */
  lemma DecidingCodes(r: Response)
    ensures Decides(r) <==> r.status in {100, 200, 204}
  {
  }

  /** An answer of the modify phase: the first OK, or without one that of the last loaded module. */
  ghost predicate ModifyAnswer(handlers: seq<Modifier>, v: View, r: Response) {
    || (exists k :: 0 <= k < |handlers| && handlers[k].loaded && NoOkBefore(handlers, v, k)
          && r == handlers[k].onModify(v) && r.status == 200)
    || (NoOkBefore(handlers, v, |handlers|) && exists k :: IsLastLoaded(handlers, k) && r == handlers[k].onModify(v))
  }

  /** An answer of the preview phase: the first that decides, or without one that of the last loaded module. */
  ghost predicate PreviewAnswer(handlers: seq<Modifier>, v: View, r: Response) {
    || (exists k :: 0 <= k < |handlers| && handlers[k].loaded && UndecidedBefore(handlers, v, k)
          && r == handlers[k].onPreview(v) && r.status in {200, 204})
    || (UndecidedBefore(handlers, v, |handlers|)
          && exists k :: IsLastLoaded(handlers, k) && r == handlers[k].onPreview(v))
  }

  /** What the client gets from the modify phase; without any module, an error. */
  ghost predicate FinalAnswer(handlers: seq<Modifier>, v: View, stamp: Stamp, r: Response) {
    if NoneLoaded(handlers) then r == NewResponse(stamp, 500) else ModifyAnswer(handlers, v, r)
  }

  lemma ModifyAnswered(handlers: seq<Modifier>, v: View, stamp: Stamp)
    ensures FinalAnswer(handlers, v, stamp, Finish(Modified(handlers, v), stamp))
  {
    hide Modified;
    NullWhenNoneLoaded(handlers, v);
    if !NoneLoaded(handlers) {
      if NoOkBefore(handlers, v, |handlers|) {
        var k := LastLoaded(handlers);
        LastLoadedWins(handlers, v, k);
      } else {
        var k := FirstOk(handlers, v);
        FirstOkWins(handlers, v, k);
      }
    }
  }

  lemma PreviewAnswered(handlers: seq<Modifier>, v: View)
    ensures
      var verdict := PreviewVerdict(handlers, v, None);
      verdict.Answered? && verdict.response.Some? ==> PreviewAnswer(handlers, v, verdict.response.value)
  {
    hide PreviewVerdict;
    PreviewOutcome(handlers, v);
    if UndecidedBefore(handlers, v, |handlers|) {
      UndecidedPreview(handlers, v, None);
      if !NoneLoaded(handlers) {
        var k := LastLoaded(handlers);
      }
    } else {
      var k := FirstDecided(handlers, v);
      FirstDecides(handlers, v, None, k);
    }
  }

  // ----- The whole of `process` -----

  /**
   What processing one request amounts to: the response handed to the worker,
   the 100 Continue sent on the way (if any), what `process_modify` was shown (if
   it ran), and the stream left behind.
   */
  datatype Processed = Processed(response: Response, interim: Option<Response>, shown: Option<View>, stream: In)

  function Finish(answer: Option<Response>, stamp: Stamp): Response {
    if answer.Some? then answer.value else ServerError(stamp)
  }

  /**
   `process`, for the orders the two sorts returned.  `order` sorts the announced
   offsets, `reorder` the ones recomputed after the first read.
   */
  function Handled(
    handlers: seq<Modifier>, stamp: Stamp, header: Parsed, s: In, writable: bool,
    order: seq<Entity>, reorder: seq<Entity>, garbage: Garbage): Processed
    requires reorder != []
  {
    var (p1, s1) := SectionsRead(order, header.fields.offsets, s, EMPTY, garbage);
    var fields := header.fields.(offsets := Updated(header.fields.offsets, p1));
    Concluded(handlers, stamp, View(header.line, fields, p1), s1, writable, reorder, garbage)
  }

  /** The rest of `process`, from what the first read yields. */
  function Concluded(
    handlers: seq<Modifier>, stamp: Stamp, v1: View, s1: In, writable: bool,
    reorder: seq<Entity>, garbage: Garbage): Processed
    requires reorder != []
  {
    var verdict := if PreviewSize(v1.fields) >= 0 then PreviewVerdict(handlers, v1, None) else Answered(None);
    match verdict
    case Answered(Some(r)) => Processed(r, None, None, s1)
    case Answered(None) => Processed(Finish(Modified(handlers, v1), stamp), None, Some(v1), s1)
    case Continued(r) =>
      if v1.payload.ieof || !writable then Processed(ServerError(stamp), None, None, s1)
      else
        var (p2, s2) := LastRead(reorder[|reorder| - 1], s1, v1.payload, garbage);
        var v2 := View(v1.line, v1.fields.(offsets := Updated(v1.fields.offsets, p2)), p2);
        Processed(Finish(Modified(handlers, v2), stamp), Some(r), Some(v2), s2)
  }

  lemma InterimWritten(
    handlers: seq<Modifier>, stamp: Stamp, header: Parsed, s: In, writable: bool,
    order: seq<Entity>, reorder: seq<Entity>, garbage: Garbage)
    requires reorder != []
    ensures Handled(handlers, stamp, header, s, writable, order, reorder, garbage).interim.Some? ==> writable
  {
    hide SectionsRead, LastRead, Updated, Modified, PreviewVerdict;
  }

  class RequestHandler {
    const handlers: seq<Modifier>
    const stamp: Stamp

    constructor (handlers: seq<Modifier>, stamp: Stamp)
      ensures this.handlers == handlers && this.stamp == stamp
    {
      this.handlers, this.stamp := handlers, stamp;
    }

    /** `process_modify` */
    method ProcessModify(v: View) returns (response: Option<Response>)
      ensures response == Modified(handlers, v)
    {
      response := None;
      var i := 0;
      assert handlers[0..] == handlers;
      while i < |handlers|
        invariant 0 <= i <= |handlers|
        invariant Modified(handlers, v) ==
                  if Modified(handlers[i..], v).Some? then Modified(handlers[i..], v) else response
      {
        assert handlers[i..][1..] == handlers[i + 1..];
        if !handlers[i].loaded {
          i := i + 1;
          continue;
        }
        response := Some(handlers[i].onModify(v));
        if response.value.status == OK {
          break;
        }
        i := i + 1;
      }
    }

    /** The loop of `process_preview`. */
    method AskPreview(v: View) returns (verdict: Verdict)
      ensures verdict == PreviewVerdict(handlers, v, None)
    {
      var response := None;
      var i := 0;
      assert handlers[0..] == handlers;
      while i < |handlers|
        invariant 0 <= i <= |handlers|
        invariant PreviewVerdict(handlers, v, None) == PreviewVerdict(handlers[i..], v, response)
      {
        assert handlers[i..][1..] == handlers[i + 1..];
        if handlers[i].loaded {
          var r := handlers[i].onPreview(v);
          if r.status == NO_CONTENT || r.status == OK {
            return Answered(Some(r));
          }
          if r.status == CONTINUE {
            return Continued(r);
          }
          response := Some(r);
        }
        i := i + 1;
      }
      verdict := Answered(response);
    }

    /**
     `preview_continue`: a module may ask to continue only if the client has not
     said that the preview was everything.
     */
    method PreviewContinue(r: Response, request: Request, socket: Socket)
      returns (ok: bool, ghost reorder: seq<Entity>)
      modifies request, request.header`encapsulated, socket`unread, socket`good, socket`output
      ensures ok <==> !old(request.payload.ieof) && socket.writable
      ensures Sorts(reorder, old(request.header.encapsulated)) && reorder != []
      ensures !ok ==>
        && request.payload == old(request.payload)
        && request.header.encapsulated == old(request.header.encapsulated)
        && socket.Incoming() == old(socket.Incoming()) && socket.output == old(socket.output)
      ensures ok ==>
        && socket.output == old(socket.output) + ResponseOctets(r)
        && (request.payload, socket.Incoming()) ==
           LastRead(reorder[|reorder| - 1], old(socket.Incoming()), old(request.payload), socket.stale)
        && request.header.encapsulated == Updated(old(request.header.encapsulated), request.payload)
    {
      hide LastRead, Updated, ResponseOctets;
      ok := false;
      if !request.payload.ieof {
        var sent := SendResponse(r, socket);
        if sent {
          ok, reorder := ReadReqContinueData(request, socket);
          return;
        }
      }
      var anyOrder := request.header.SortEncapsulated();
      reorder := anyOrder;
      assert NullBody in reorder;
    }

    /** `process` */
    method Process(header: RequestHeader, socket: Socket)
      returns (
        response: Response, ghost order: seq<Entity>, ghost reorder: seq<Entity>, ghost interim: Option<Response>)
      modifies header.header`encapsulated, socket`unread, socket`good, socket`output
      ensures Sorts(order, old(header.header.encapsulated)) && reorder != []
      ensures
        var parsed := Parsed(header.request, old(header.header.State()));
        var p1 := SectionsRead(order, parsed.fields.offsets, old(socket.Incoming()), EMPTY, socket.stale).0;
        Sorts(reorder, Updated(parsed.fields.offsets, p1))
      ensures
        var parsed := Parsed(header.request, old(header.header.State()));
        var s := old(socket.Incoming());
        var done := Handled(handlers, stamp, parsed, s, socket.writable, order, reorder, socket.stale);
        response == done.response && interim == done.interim && socket.Incoming() == done.stream
      ensures interim.Some? ==> interim.value.status == CONTINUE
      ensures socket.output == old(socket.output) + if interim.Some? then ResponseOctets(interim.value) else ""
    {
      hide SectionsRead, LastRead, Updated, ResponseOctets, PreviewSize, Modified, PreviewVerdict;
      interim := None;
      var request := new Request(header.header);
      var read;
      read, order := ReadReqData(request, socket);
      var fields := header.header.State();
      var v1 := View(header.request, fields, request.payload);
      var answer := None;
      if PreviewSize(fields) >= 0 {
        var verdict := AskPreview(v1);
        if verdict.Continued? {
          var ok;
          ok, reorder := PreviewContinue(verdict.response100, request, socket);
          if ok {
            interim := Some(verdict.response100);
            var v2 := View(header.request, header.header.State(), request.payload);
            answer := ProcessModify(v2);
          } else {
            answer := Some(ServerError(stamp));
          }
        } else {
          var anyOrder := header.header.SortEncapsulated();
          reorder := anyOrder;
          assert NullBody in reorder;
          answer := verdict.response;
          if answer.None? {
            answer := ProcessModify(v1);
          }
        }
      } else {
        var anyOrder := header.header.SortEncapsulated();
        reorder := anyOrder;
        assert NullBody in reorder;
        answer := ProcessModify(v1);
      }
      response := if answer.Some? then answer.value else ServerError(stamp);
    }
  }
}
