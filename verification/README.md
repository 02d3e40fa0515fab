# A Dafny model of bitz-server

bitz-server is an ICAP server (RFC 3507).  This project models the path of a request through
it and the process pool around it, and proves what that path does:

- the socket readers, the chunked transfer coding and its two decoders (`Octets`, `Numerals`,
  `Text`, `Wire`, `Chunked`, `ChunkedLaws`);
- the Encapsulated header - offsets, sort, printer, parser - and the messages read and sent
  under it (`Encapsulated`, `EncapsulatedLaws`, `Message`, `MessageLaws`);
- the header block of a request, from octets to parsed fields (`Framing`, `RequestHeaders`);
- the preview conversation, request processing over arbitrary modifier modules, a worker with its
  request budget, and a client that sends one request after another (`Preview`, `Responses`,
  `Handler`, `Session`, `Worker`, `Pipeline`, `LostPlace`, `LostRest`);
- the worker pool as a concurrent system with a SIGCHLD handler between any two steps, and the
  manager object that runs it (`Pool`, `PoolLaws`, `Manager`).

Loops and objects of the program are methods and classes here.  Each method is proved against a
function on values, and the laws are proved about those functions for all inputs.  An octet is a
`char`; the readers take codes 1 to 127 for positive, as a signed `char` does.

## Main results

- `Pipeline.Pipelined`: a client sends well-formed requests one after another, from their octets
  on the wire.  Each turn of the worker answers the request it should, with replies that depend on
  that request alone, up to and including the first request that is not read whole; what the turn
  after that one reads is stated too.  `Pipeline.PlaceKept` says exactly which requests are read
  whole.  `Worker.Worker.ServeClient` and `Worker.Worker.Run` are proved against the notion of a
  connection used there, which fixes every turn (`Pipeline.ConnectionDetermined`).
- `Responses.ResponseArrives`: a whole response, from its status line to the end of its payload, is
  collected, parsed and read back, exactly for the payloads that `MessageLaws.MessageRoundTrip`
  names.
- `Session.WholePreview`: a preview request, from its octets on the wire.  The header block is
  collected and parsed, the sections are sliced out, a 100 Continue is sent, and the modify phase
  is shown the header sections as sent and the body put together from both parts - for every cut
  of the parts into chunks, and every cut of the body after which it stays the last entity
  (`Session.RestRead`).  After any other cut the modify phase is shown the first part, and the
  second is left on the stream (`Session.RestLost`).  `Session.WholeRequest` is the same without
  preview, `Session.PreviewOnly` for a preview that ends the request.
- `Session.ProtocolSafety`: for all modifiers, what is sent when, and exactly when it is more than
  the protocol allows.
- `Preview.Conversation`: exactly when the second part of a preview body is delivered.
- `MessageLaws.MessageRoundTrip`: exactly which payloads survive being sent and read again,
  whatever their shape and the size of their bodies.
- `Chunked.DecodesEveryPartition`, `Chunked.DecodersAgree`, `Chunked.RoundTripExactly`: the
  decoders on every chunked body, and the encoder against the decoder.
- `Framing.HeaderFraming`: exactly which header blocks the fixed-size buffer collects.
- `EncapsulatedLaws.ParseUndoesPrint`, `RequestHeaders.ParseUndoesPrint`: parsing undoes printing.
- `PoolLaws.Conservation`, `PoolLaws.LostForever`, `PoolLaws.ManageBounded`,
  `PoolLaws.ShutdownSignals`: the pool over every interleaving; `Manager.Manager.ManageWorkers`
  ends with every slot occupied.

## Where the code does less than its intent

Each has the exact condition under which the intent is met.

- `send_chunked` rounds the number of chunks down and puts no CRLF between them.  Data survives
  exactly when there is some and it fits one buffer (`Chunked.RoundTripExactly`); otherwise the
  decoder gets the first 1024 octets (`Chunked.EncoderAgainstDecoder`, `Chunked.TruncationExample`).
- After the first read of a preview the offsets are recomputed from what was read.  The body is
  then not the last entity, and its rest stays unread, if some of it was read and there is no
  header section, or a response header stands with a request body (`Preview.StaysLast`,
  `Preview.Conversation`, `Preview.LostRestExample`).  With an empty first part and at most one
  header section the outcome hangs on how the sort orders equal offsets (`Preview.TieMatters`); the
  positive statement assumes that they keep the order of their keys.  `LostRest.RestIsLost` and
  `LostRest.RestIsRead` are two previews that differ in a header section only.
- `read_chunked_payload` does not read a trailer; it stops at the end of a body exactly if there is
  none (`Chunked.TrailerLeft`).
- Nothing stops a module from answering 100 Continue in the modify phase.  If none answers OK and
  the last one loaded does that, a 100 Continue is the final response - without a preview, or a
  second time after one (`Session.ProtocolSafety`, `Handler.ContinueReturned`,
  `Session.StrayContinue`).
- A response with a body of more than one buffer, two headers and no body, a body without a header,
  or a header after a body is not read back as sent (`MessageLaws.MessageRoundTrip`,
  `MessageLaws.TwoHeadersExample`).  The one exception is a body without a header that is its own
  encoding, and there is such a body (`MessageLaws.SelfEncodedExists`).  With two bodies the first
  is read raw from its own encoding, and the second from wherever that ends: they come back exactly
  if both are met in place (`MessageLaws.TwoBodies`).
- The sections of an OPTIONS request, or of one with an unknown method, are not read, nor is the
  rest of a preview whose body does not stay last.  The stream is left at the end of a request
  exactly in two cases: a handler processes it, and there is no second part or the body stays last;
  or no handler does, and nothing follows its header block (`Pipeline.PlaceKept`).  Otherwise the
  next turn takes what is left for a header block (`Pipeline.LeftoverAnswered`): one request with an
  unknown method gets two answers (`LostPlace.TwoAnswers`), and so does a preview
  (`LostRest.RestIsLost`).
- A header line whose length leaves one octet (before the blank line) or two octets over whole
  buffers breaks the header block (`Framing.HeaderFraming`, `Framing.UnrecognisedLine`).
- A header line with a second colon is dropped, for instance a host with a port
  (`RequestHeaders.FieldRecovered`, `RequestHeaders.PlainFields`).
- A child that dies between fork and the store of its pid blocks its slot for good
  (`PoolLaws.LostForever`, `PoolLaws.EarlyReapExample`); over every run, `manage_workers` restores
  the full number of living workers exactly when that has never happened (`PoolLaws.ManageEnds`).
- A shutdown misses a living child exactly when that one is being spawned at that moment, and it
  signals a pid that is no child any more exactly when a slot is blocked by one
  (`PoolLaws.ShutdownSignals`).

## Assumptions

- A short read takes what is left and clears the stream's `good()`; `get` at the end returns -1.
- Text that does not start with a base-16 numeral below 2^32, or continues with an x, leaves an
  arbitrary `unsigned int` in `hextodec` (`Numerals.HexNumeralRead`).
- Sorting by offset promises a sorted permutation and nothing about ties; the implementation chosen
  here is an insertion sort, but its contract does not say so.
- Pool: an update of a field is one step, a reap is one step, slots start with pid 0, and pids are
  not reused.
- The client of `Pipeline` has sent what the server reads when it is read, and the server can write.
  Its header lines are framed (`Framing.HeaderFraming`) and hold no stray CR or LF, and announce
  the sections that follow; its bodies have no trailer.  It sends the second part of a body exactly
  when it gets a 100 Continue; then header sections and first part are shorter than 2^31 octets, and
  after an empty first part the sort keeps equal offsets in the order of their keys.
- The connections that `accept` returns are distinct.
- A modifier answers as a function of the request it is shown and does not change it.

## Model

| member | source | states |
|---|---|---|
| Text.Split | lib/icap/util.cpp:397-411 | the loop returns the pieces between delimiter characters |
| Text.PiecesOfJoin | lib/icap/util.cpp:397-411 | splitting at a character undoes joining with it |
| Text.JoinOfPieces | lib/icap/util.cpp:397-411 | joining undoes splitting, and no piece holds the delimiter |
| Text.TrimExact | lib/icap/util.cpp:414-428 | trimming removes exactly the white space around a trimmed text |
| Text.FirstDifference | lib/icap/util.cpp:573-590 | the order of keys is that of their first difference, a prefix first |
| Octets.SpaceTable | lib/icap/util.cpp:414-428 | the six characters of white space |
| Octets.Conversions | lib/icap/header.cpp:169-207 | the conversions to `unsigned int` and `int` keep a number modulo 2^32, each in its range |
| Numerals.DigitTable | lib/icap/util.cpp:32-42 | the digits of base 16 in both cases, and no others |
| Numerals.HexNumeralRead | lib/icap/util.cpp:32-42 | after white space, a numeral in any spelling, below 2^32, is read as its value up to the next character; otherwise the result is what the variable held |
| Numerals.UpperCaseRead | lib/icap/util.cpp:32-42 | a number spelled in upper case is read as the number |
| Numerals.PrintShape | lib/icap/util.cpp:45-55 | a printed number has lower-case digits and no leading zero |
| Numerals.AtoiRead | lib/icap/header.cpp:113 | a number with or without sign is read after white space and up to the next character |
| Numerals.HexRoundTrip | lib/icap/util.cpp:32-55 | `hextodec` undoes `dectohex` |
| Wire.Socket.ReadLine | lib/icap/util.cpp:109-143 | the loop stops at the first CRLF pair or octet that is not positive; result and stream in closed form |
| Wire.Socket.ReadLineInto | lib/icap/util.cpp:58-106 | the same for the fixed buffer, which also stops when full; the buffer ends in NUL and holds none before |
| Wire.Socket.ReadData | lib/icap/util.cpp:146-179 | the requested octets, or all whole buffers of what is left and a failed stream |
| Wire.LineReadExact | lib/icap/util.cpp:109-143 | a line ended by CRLF is read exactly, the stream is left behind it |
| Wire.LineReadCut | lib/icap/util.cpp:109-143 | a line ends before an octet that is zero or above 127, which is dropped, or with the stream; a failed stream yields nothing |
| Wire.BufferedAgrees | lib/icap/util.cpp:58-143 | on a line ended by CRLF both forms of `read_line` return the line and leave the stream right behind it, exactly when the line, its CRLF and a NUL fit the buffer |
| Wire.BufferFull | lib/icap/util.cpp:58-106 | a longer line is cut where the buffer is full; a buffer of one octet takes nothing |
| Wire.DataReadShort | lib/icap/util.cpp:146-179 | of a short read only whole buffers of 1024 are kept, all is consumed, and the stream fails |
| Chunked.ReadChunkHeader | lib/icap/util.cpp:195-219 | size and extension of the chunk line; parts that are missing leave the chunk as it was |
| Chunked.ReadChunk | lib/icap/util.cpp:222-246 | header, data and two more octets; a size of 2^31 or more reads no data |
| Chunked.ReadChunkedPayload | lib/icap/util.cpp:281-309 | the loop computes `PayloadRead` on every stream, and terminates |
| Chunked.ReadChunkSize | lib/icap/util.cpp:182-192 | the size on the next line |
| Chunked.ReadChunked | lib/icap/util.cpp:249-278 | the loop computes `ChunkedRead` on every stream, and terminates |
| Chunked.DecodesEveryPartition | lib/icap/util.cpp:195-309 | every chunked body, in any partition, spelling of sizes and with any extensions, decodes to its data with the right ieof flag, and the stream is left at its end |
| Chunked.DecoderTotal | lib/icap/util.cpp:146-309 | on any stream: the old payload stays a prefix, a suffix of the stream is left, no more is added than consumed |
| Chunked.DecodersAgree | lib/icap/util.cpp:249-309 | both decoders return the data of every well-formed body; `read_chunked` stops at its end, and both stop at the same place exactly when it has no trailer |
| Chunked.TrailerLeft | lib/icap/util.cpp:281-309 | `read_chunked_payload` stops at the end of a well-formed body exactly when it has no trailer; otherwise all of the trailer but two octets is left |
| ChunkedLaws.IeofExactly | lib/icap/util.cpp:195-219 | the ieof flag is set exactly by the one extension `ieof`, with white space around it |
| ChunkedLaws.BlankSizeLine | lib/icap/util.cpp:182-219 | a blank size line ends a body for one decoder, and leaves the other with what its variable held |
| ChunkedLaws.HugeChunk | lib/icap/util.cpp:222-246 | no data is read for a size of 2^31 or more, and the body ends |
| ChunkedLaws.TruncatedChunk | lib/icap/util.cpp:249-309 | of a chunk that the stream cuts short, both decoders keep the whole buffers |
| ChunkedLaws.UpperCaseChunk | lib/icap/util.cpp:195-246 | a chunk of ten octets whose size is spelled A |
| Chunked.SendChunked | lib/icap/util.cpp:341-394 | the octets written: floor-many blocks, each behind its size line, then the final octets; the 32-bit offset wraps |
| ChunkedLaws.BlockContents | lib/icap/util.cpp:354-366 | each block is the 1024 octets at its offset, which is counted modulo 2^32 |
| ChunkedLaws.SentInBlocks | lib/icap/util.cpp:341-394 | below 2^32 octets the blocks put together are the data up to the last whole block, or all of it if less than one |
| ChunkedLaws.FramesRead | lib/icap/util.cpp:362-372 | each block stands behind a line with its length |
| Chunked.EncoderAgainstDecoder | lib/icap/util.cpp:341-394 | the decoder gets the first buffer of the data without ieof, and consumes all that was written exactly when that was one block, that is, for fewer than 2048 octets (of data below 2^41) |
| Chunked.UnseparatedBlocks | lib/icap/util.cpp:354-385 | with two blocks or more the decoder mistakes the second size line for the end of the body |
| Chunked.RoundTripExactly | lib/icap/util.cpp:222-394 | decoding gives back what was encoded, with nothing left over, exactly for 1 to 1024 octets |
| Chunked.TruncationExample | lib/icap/util.cpp:341-394 | 1025 octets come back as 1024 |
| Encapsulated.Header.Attach | lib/icap/header.cpp:77-90 | trims, and sends an Encapsulated value to the offsets and any other to the fields |
| Encapsulated.Header.AttachEncapsulated | lib/icap/header.cpp:93-123 | the loop parses the list; unknown names are ignored, items of another form are reported |
| EncapsulatedLaws.NameTable | lib/icap/header.cpp:93-123 | the six names and no others |
| EncapsulatedLaws.ItemRead | lib/icap/header.cpp:102-121 | an item sets the offset of a known name and ignores an unknown one, with white space anywhere |
| EncapsulatedLaws.ItemMalformed | lib/icap/header.cpp:102-121 | an item without equals sign, or with two, is reported and sets nothing |
| EncapsulatedLaws.LaterItem | lib/icap/header.cpp:93-123 | items count one after another, so a later one for the same entity wins |
| EncapsulatedLaws.ListExample | lib/icap/header.cpp:93-123 | req-hdr, res-hdr and res-body at 0, 137 and 296 |
| EncapsulatedLaws.RankedByName | lib/icap/header.cpp:131-166 | the entities are ranked as their names are ordered |
| Encapsulated.Header.EncapsulatedStr | lib/icap/header.cpp:131-166 | prints the present entities in sorted order, or null-body=0 |
| Encapsulated.Header.UpdateEncapsulated | lib/icap/header.cpp:169-207 | non-empty sections get the sum of the lengths before them, null-body the total when the last section starts at 0, others are kept; in 32-bit arithmetic |
| EncapsulatedLaws.UpdatedAlways | lib/icap/header.cpp:169-207 | the offsets in terms of the four lengths, modulo 2^32, whatever was stored before |
| Encapsulated.Header.SortEncapsulated | lib/icap/header.cpp:210-217 | every entity once, in the order of offsets |
| EncapsulatedLaws.SortDetermines | lib/icap/header.cpp:210-217 | without ties the sort fixes which entities are read and printed, and in which order |
| EncapsulatedLaws.ParseUndoesPrint | lib/icap/header.cpp:93-166 | parsing the printed header restores every present entry and leaves the rest at -1, for any order of ties; from none it restores null-body=0 |
| EncapsulatedLaws.Layout | lib/icap/header.cpp:169-207 | on a fresh header, below 2^31: prefix sums, strictly increasing, no two equal, null-body exactly when the last section starts at 0 |
| EncapsulatedLaws.PrintedOrderFixed | lib/icap/header.cpp:131-217 | the header printed for a payload does not depend on how the sort orders ties |
| Message.Request.SetPayload | lib/icap/request.cpp:49-56 | stores the payload and recomputes the offsets |
| Message.ReadReqData | lib/icap/util.cpp:447-525 | the loop computes `SectionsRead` for the order the sort returned, and stores the payload |
| Message.ReadReqContinueData | lib/icap/util.cpp:528-570 | continues the body if it is the last entity of the sorted list, and reads nothing otherwise |
| MessageLaws.LastReadCases | lib/icap/util.cpp:475-570 | as the last entity only a body is read, and only its section and the ieof flag change |
| MessageLaws.SectionReadCases | lib/icap/util.cpp:488-517 | before the last, null-body, opt-body and sections without room are passed over |
| Message.SendPayload | lib/icap/util.cpp:634-657 | headers as they are, bodies chunked, in sending order |
| MessageLaws.Slicing | lib/icap/util.cpp:447-525 | each section is the slice of the stream between its offset and the next; the slices add up to the last offset, where the last entity is read |
| MessageLaws.MessageRoundTrip | lib/icap/util.cpp:447-657 | what is sent and read back under its own offsets gives the same payload and ends with the message, exactly for the payload shapes that can be carried with a body of at most 1024 octets, for a body without header that is its own encoding, and for two bodies that are met in place |
| MessageLaws.SelfEncodedExists | lib/icap/util.cpp:341-394 | there is a body whose encoding is the body itself, and none within one buffer |
| MessageLaws.TwoBodies | lib/icap/util.cpp:447-525 | two bodies come back exactly if the request body and the response header stand raw at the start of what was sent from the request body on, and the rest decodes to the response body |
| MessageLaws.TwoHeadersExample | lib/icap/util.cpp:475-488 | two headers without a body: the first is read, the second is left on the stream |
| MessageLaws.OffsetsAreStarts | lib/icap/util.cpp:634-657 | when no body precedes another section, each offset is where the octets of its section start |
| Preview.FirstRead | lib/icap/util.cpp:447-525 | the first read takes the header sections and the first part of the body, or no body for null-body, and nothing of what follows |
| Preview.RecomputedOffsets | lib/icap/header.cpp:169-207 | every offset after the first read, in terms of three lengths |
| Preview.LastAfterFirstRead | lib/icap/util.cpp:541-556 | the second read finds the body last exactly when it stays last |
| Preview.TieMatters | lib/icap/header.cpp:202-217 | with an empty first part the sort may put null-body behind the body exactly when there is at most one header section |
| Preview.Conversation | src/bitz/request_handler.cpp:353-379 | the header sections are seen as sent, and both parts of the body are delivered exactly when the body stays the last entity or the second part is empty |
| Preview.LostRestExample | lib/icap/util.cpp:545-563 | a body without header section: the rest stays unread |
| Framing.ReadBlock | lib/icap/util.cpp:431-439 | the loop collects buffered pieces of more than two octets |
| Framing.HeaderFraming | lib/icap/util.cpp:431-444 | the block is collected exactly and the stream left at the payload if and only if every line end is recognised |
| Framing.ShortLinesRecognised | lib/icap/util.cpp:58-106 | lines of at most 1023 octets with CRLF always are |
| Framing.UnrecognisedLine | lib/icap/util.cpp:58-106 | a last line of 1024 octets is not, nor one of 1025 |
| RequestHeaders.RequestHeader.ReadHeader | lib/icap/request_header.cpp:75-110 | the loop sets the request line and attaches the header lines |
| RequestHeaders.ReadReqHeader | lib/icap/util.cpp:431-444 | collects the block and parses it |
| RequestHeaders.LinesParsed | lib/icap/request_header.cpp:79-108 | cutting at every CR and LF gives the same as cutting at CRLF pairs |
| RequestHeaders.FieldRecovered | lib/icap/request_header.cpp:98-106 | a printed field is attached if its value holds no colon, and dropped otherwise |
| RequestHeaders.ParseUndoesPrint | lib/icap/request_header.cpp:75-110 | parsing a printed request header recovers the request line and all fields but the dropped ones |
| RequestHeaders.PlainFields | lib/icap/header.cpp:77-90 | looking up a key yields the value of the last field with it that is not dropped, and nothing if there is none |
| RequestHeaders.AttachedTwice | lib/icap/header.cpp:77-90 | a later field replaces one with the same key; Encapsulated lists add up |
| RequestHeaders.SpacedField | lib/icap/request_header.cpp:98-106 | white space around key and value does not count |
| RequestHeaders.LineDropped | lib/icap/request_header.cpp:98-106 | a line without colon, or with two, is dropped |
| RequestHeaders.ThreeWordsOnly | lib/icap/request_header.cpp:84-93 | a request line counts exactly if it has three words |
| RequestHeaders.EmptyHeader | lib/icap/request_header.cpp:75-110 | an empty block leaves the defaults |
| RequestHeaders.OffsetsRecovered | lib/icap/header.cpp:84-123 | the offsets are those the one Encapsulated field was printed from |
| RequestHeaders.SendHeaders | lib/icap/util.cpp:573-608 | field lines, the Encapsulated line, the blank line |
| Responses.SendResponse | lib/icap/util.cpp:611-664 | status line, header fields, Encapsulated header and payload are written, or nothing and false |
| Responses.PutReplaces | lib/icap/header.cpp:77-90 | attaching a field replaces the one with its key or adds it, and keeps the key order in which fields are sent |
| Responses.ConnectionSaid | src/bitz/worker.cpp:164-168 | on a kept connection the header says keep-alive, whatever it said before, and nothing else changes |
| Responses.DefaultConnection | lib/icap/response_header.cpp:54-65 | a new response says that the connection closes, except a 100 Continue |
| Responses.DefaultsSorted | lib/icap/response_header.cpp:54-65 | its fields are in key order |
| Responses.ReasonTable | lib/icap/util.cpp:667-687 | the text of each status |
| Responses.StatusOnWire | lib/icap/util.cpp:620-627 | the first line sent begins with ICAP/1.0 and the number of the status |
| Responses.StatusesDiffer | lib/icap/util.cpp:620-627 | responses of different status have different octets |
| Responses.RefusalText | src/bitz/worker.cpp:156-162 | the refusal of an unknown method, octet by octet |
| Responses.ResponseArrives | lib/icap/util.cpp:573-664 | from the octets of a whole response: fields and offsets are recovered, and the payload is read back to the end of the response exactly if the message round trip holds for it |
| Handler.RequestHandler.ProcessModify | src/bitz/request_handler.cpp:309-350 | the loop computes `Modified` |
| Handler.FirstOkWins | src/bitz/request_handler.cpp:317-346 | the first OK answer is returned |
| Handler.LastLoadedWins | src/bitz/request_handler.cpp:317-348 | without an OK the last loaded handler's answer is returned |
| Handler.NullWhenNoneLoaded | src/bitz/request_handler.cpp:309-350 | NULL exactly when no handler is loaded |
| Handler.ContinueReturned | src/bitz/request_handler.cpp:317-348 | the modify phase returns a 100 Continue exactly when no handler answers OK and the last loaded one answers that |
| Handler.PreviewOutcome | src/bitz/request_handler.cpp:249-304 | the preview asks to continue exactly when the first handler that decides does, and is NULL exactly when none is loaded |
| Handler.PreviewVerdict | src/bitz/request_handler.cpp:249-304 | an answer of the preview is never a 100 Continue, and asking to continue is |
| Handler.FirstDecides | src/bitz/request_handler.cpp:249-297 | the first loaded handler that answers OK, no content or continue decides the preview |
| Handler.UndecidedPreview | src/bitz/request_handler.cpp:249-304 | if none decides, the last loaded handler's answer is returned, and NULL if none is loaded |
| Handler.DecidingCodes | src/bitz/request_handler.cpp:270-293 | 100, 200 and 204 decide a preview, and no others |
| Handler.ModifyAnswered | src/bitz/request_handler.cpp:309-350 | the client gets the first OK answer, without one that of the last loaded module, and a 500 without any |
| Handler.PreviewAnswered | src/bitz/request_handler.cpp:249-302 | an answer of the preview is the first that decides, or without one that of the last loaded module |
| Handler.PreviewsRead | lib/icap/request.cpp:65-82 | the preview size is not negative exactly if there is a Preview header that is not empty and not a number below zero |
| Handler.RequestHandler.AskPreview | src/bitz/request_handler.cpp:249-302 | the loop computes `PreviewVerdict` |
| Handler.RequestHandler.PreviewContinue | src/bitz/request_handler.cpp:353-379 | with ieof, or if the 100 Continue cannot be sent, nothing happens; else it is sent and the rest is read |
| Handler.RequestHandler.Process | src/bitz/request_handler.cpp:67-126 | response, interim response, stream and output are those of `Handled`, for the orders the sorts returned |
| Session.ProtocolSafety | src/bitz/request_handler.cpp:67-379 | over all modifiers: a 100 Continue is sent on the way exactly when asked for in a preview without ieof; what the modify phase is shown and where the stream is left, before and after it; what is sent is one final response behind at most that one 100 Continue, exactly unless the modify phase runs and itself ends in a 100 Continue |
| Session.PreviewByHeader | src/bitz/request_handler.cpp:91-110 | without a Preview header, or with an empty one, the modify phase answers and nothing else happens; with a printed size, 0 included, the preview phase does |
| Session.StrayContinue | src/bitz/request_handler.cpp:309-350 | a module that always answers 100 Continue: it is the final response, and after a preview sent twice |
| Session.HeaderArrives | lib/icap/util.cpp:431-444 | the octets of a header block, in any spelling that announces the sections, become the request line and fields its lines say |
| Session.PrintedHeader | lib/icap/request_header.cpp:75-110 | a printed request header is one such spelling: request line, fields and offsets are recovered |
| Session.WholeRequest | src/bitz/request_handler.cpp:67-126 | from octets to modifiers without preview: request line, sections and body (or null-body) as sent, the answer is that of the modify phase, stream at the end |
| Session.WholePreview | src/bitz/request_handler.cpp:67-126 | from octets to modifiers with preview: 100 Continue, then the answer of the modify phase to the body from both parts, stream at the end; or, if the body does not stay last, to the first part, the second left on the stream |
| Session.RestLost | src/bitz/request_handler.cpp:353-379 | in the second case the modify phase is shown exactly what the preview was |
| Session.PreviewOnly | src/bitz/request_handler.cpp:232-304 | a preview after which the client sends no more: the answer of the preview, or an error, stream at the end |
| Worker.Worker.ServeClient | src/bitz/worker.cpp:121-186 | the budget shrinks by the number of turns; each turn reads the next header block from where the one before left the stream, times out or is answered by the handler of its method, with a Connection header if it is kept; the connection ends with the first turn that does not keep it, or with the budget; the client receives the octets of those responses |
| Worker.Worker.Run | src/bitz/worker.cpp:54-97 | failures to accept and turns add up to the starting budget; a failure is recorded exactly where accept failed; every accepted connection is served as a whole with the budget left by those before, and no other is touched |
| Worker.SpentTogether | src/bitz/worker.cpp:54-97 | a failure to accept costs one request, a connection one for each turn |
| Pipeline.ConnectionByHeader | src/bitz/worker.cpp:164-176 | after a request the connection has another turn exactly if its last Connection field says keep-alive; otherwise the response goes out as it was given |
| Pipeline.ConnectionDetermined | src/bitz/worker.cpp:121-186 | arriving octets, timeouts, budget and outcomes of the sorts leave one possible connection |
| Pipeline.TurnAnswers | src/bitz/worker.cpp:128-176 | a turn on a well-formed request: parsed as sent, its replies depend on the request alone; the stream is left at its end, before its second part if that is lost, or behind its header block if no handler processes it |
| Pipeline.PlaceKept | src/bitz/worker.cpp:144-176 | the stream is left at the end of the request exactly if a handler processes it and its second part, if any, is read, or if no handler does and nothing follows its header block |
| Pipeline.LeftoverAnswered | src/bitz/worker.cpp:128-176 | what was not read is taken for the next header block, and answered if it reads like a request |
| LostPlace.TwoAnswers | src/bitz/worker.cpp:144-176 | a request with an unknown method whose section reads like an OPTIONS request: two answers |
| LostRest.RestIsRead | src/bitz/request_handler.cpp:353-379 | a preview with a header section: the modify phase answers to the whole body |
| LostRest.RestIsLost | lib/icap/util.cpp:541-556 | the same preview without it: the modify phase answers to the first part, and the rest of the body gets an answer of its own |
| Pipeline.Pipelined | src/bitz/worker.cpp:121-186 | requests sent one after another are answered in order, each by its own replies, up to the first that is not read whole; how many turns there are, where the stream is left, and what the turn after that takes for its header |
| Pipeline.OutputIsReplies | src/bitz/worker.cpp:128-176 | what the client receives is the octets of those replies |
| Pool.StepInv | src/bitz/manager.cpp:101-223 | every step of spawn, reap and manage keeps the invariant of the pool |
| Pool.RunInv | src/bitz-server.cpp:97-112 | so does every interleaving of them with reaps |
| PoolLaws.Conservation | src/bitz/manager.cpp:101-197 | in every state of every run: count, occupied slots, living and lost children agree; the count stays within bounds |
| PoolLaws.NoUnderflow | src/bitz/manager.cpp:178-197 | a reap never takes the count below zero |
| PoolLaws.NoOverwrite | src/bitz/manager.cpp:132-137 | an occupied slot changes only when its own child is reaped |
| PoolLaws.SlotKept | src/bitz/manager.cpp:132-137 | over a whole run a slot keeps its pid until that child is reaped |
| PoolLaws.SlotsAreChildren | src/bitz/manager.cpp:101-197 | without early reaps the slots hold exactly the living recorded children, each once |
| PoolLaws.LostForever | src/bitz/manager.cpp:178-197 | a child reaped before its pid is stored blocks its slot in every continuation |
| PoolLaws.EarlyReapExample | src/bitz/manager.cpp:106-137 | a pool of one that counts itself complete with no worker alive |
| PoolLaws.EarlyReapLoses | src/bitz/manager.cpp:178-197 | over every run, a child is lost exactly when one is reaped between fork and store |
| PoolLaws.FullPool | src/bitz/manager.cpp:200-223 | over every run, a full pool has as many living workers as slots exactly when no child was reaped too early |
| PoolLaws.ManageEnds | src/bitz/manager.cpp:205-219 | over every run, when the counts agree every slot is occupied, and all workers live exactly when no child was reaped too early |
| PoolLaws.ManageBounded | src/bitz/manager.cpp:200-223 | a call disturbed by d failures and deaths takes at most (d + 1) passes' worth of steps |
| PoolLaws.ManageProgress | src/bitz/manager.cpp:200-223 | until it ends it can always take an undisturbed step |
| PoolLaws.PassTries | src/bitz/manager.cpp:205-219 | a pass in which nothing is reaped tries one fork for each empty slot, whichever fail |
| PoolLaws.ServerStarts | src/bitz/manager.cpp:78-98 | without a death, the server first sleeps with every slot occupied |
| PoolLaws.PreforkFails | src/bitz/manager.cpp:106-113 | a fork that fails before that ends the server |
| PoolLaws.ShutdownSignals | src/bitz/manager.cpp:144-175 | over every run, each recorded child, living or lost, is signalled once and nothing else; exactly which runs miss a living child, or signal a dead one |
| Manager.Manager.ReapWorker | src/bitz/manager.cpp:178-197 | the loop empties the first slot with the pid and decrements the count, as one step of the pool |
| Manager.Manager.Interrupt | src/bitz-server.cpp:97-112 | the handler reaps exactly the children that died; slots are only emptied |
| Manager.Manager.SpawnWorker | src/bitz/manager.cpp:101-141 | fork, count and store are steps of the pool; the slot was empty and holds the new pid, or the fork failed |
| Manager.Manager.Spawn | src/bitz/manager.cpp:78-98 | pre-forking is a run of the pool, ended early only by a failed fork |
| Manager.Manager.ManageWorkers | src/bitz/manager.cpp:200-223 | it ends, with every slot occupied, and with a full number of living workers exactly when no child was reaped too early in its whole history |
| Manager.Manager.Run | src/bitz-server.cpp:450-483 | as many wake-ups happen as asked for, and each ends with every slot occupied |
| Manager.Manager.Shutdown | src/bitz/manager.cpp:155-173 | the pids signalled are the recorded ones, in slot order |

## Left out

- Responses.SendResponse: a failing write writes nothing; date and tag of a response are given texts, because they depend on the clock, and so is the printed form of its offsets.
- Encapsulated.Header.SortEncapsulated: says nothing about ties, because the comparison does not.
- Wire.Socket.ReadData: exceptions from the socket are not modelled; the original retries after one.
- MessageLaws.MessageRoundTrip: the payload is shorter than 2^31 octets, the range of the offsets' type.
- Preview.Conversation: the octets counted so far stay below 2^31, the range of the offsets' type.
- Sockets, timeouts and accept are inputs of the model.
- Loading of modules, configuration, logging, option parsing and daemon start-up.
- The Python module interface (modpy): modifiers are arbitrary functions.
- What the OPTIONS response says; it is a given response.
- The worker's side of fork, signal re-raising in the termination handler, and object ownership.
