# BXP in Dafny

A model of the BXP wire protocol and of the dispatch that sits on it, with proofs about every byte
string, every run and every interleaving.

- `Bytes`, `Utf8`, `Utf8Proofs`, `Protocol`: bytes, little-endian integers, UTF-8, message types, handler effects.
- `Capnp`, `CapnpProofs`, `MessageBuilder`: the Cap'n Proto encoding of the two structs of
  `schema/bxp.capnp`. The reader takes arbitrary bytes and follows struct, list and far pointers
  over any number of segments ("Messages", "Structs", "Lists", "Blobs", "Inter-Segment Pointers" and
  "Serialization Over a Stream" in the Encoding Spec). The writer produces both shapes an allocator can
  give a Request, one segment or text in a second segment; which one is a parameter (`Layout`), so all
  results hold for every allocator choice.
- `Framing`, `Receiving`, `Messages`: length-prefixed frames, what a byte string holds, the suspended
  receive call that reads a header and then a payload as bytes arrive.
- `Transport`, `Server`, `Client`, `Router`, `FileTransfer`, `ServeLoop`: the classes and methods of the
  source, proved against the functions above. A `RecvStream` holds its unread bytes in arbitrary pieces
  and a `Source` returns arbitrary amounts per read, so each contract holds for every chunking.
- `DataPlane`: any number of unidirectional streams with a chunked copy, bytes in flight and readers
  accepted in any order.
- `System`, `SystemInvariant`, `Refinement`, `Progress`, `Guarantees`: one connection as a step system
  (client writes, network delivers some bytes either way, reads of a header or a payload, dispatch,
  emission, data-stream steps), its invariant, and the theorems about all runs.
- `Freedom`, `Views`: which runs exist. Every party can move as soon as its own input is there, and the
  views of a connection that occur are characterised in both directions.
- `SharedRouter`, `Connections`: many connections on one router, as a method whose turns follow any
  schedule and as interleaved step systems.

The same functions (`Receive`, `Frame`, `Dispatch`, `DataWire`) specify the methods and define the steps
of the system, which is what ties the two forms together.

Main results: `Refinement.ResponsesRefineDispatch` (safety for a client writing any bytes),
`Refinement.QuiescentIsComplete` with `Progress.NoInfiniteRun` (every run ends, fully answered),
`Views.ViewsExactly` (a view of a connection occurs in some run if and only if it is consistent with
dispatch), `Guarantees.CorrelationCondition` (the exact handlers for which counting responses works, over all runs),
`Receiving.AcceptedIsLongest`, `Receiving.ChunkIndependence`, `CapnpProofs.RawRequestDecodes`,
`CapnpProofs.TextBehindExact`, `DataPlane.Conservation`, and for many connections
`Connections.InterleavedRunsAreServed`, `Connections.NoInfiniteInterleaving` and `SharedRouter.ServeAll`.

Handlers are functions from a request to a finite list of emissions and a success flag. Streams are
reliable and ordered (section 2.2 of RFC 9000).

Where the code and its documents differ the model follows the code:

- Section 7 of the protocol document asks for the connection to be terminated with code 1 on a malformed or oversized
  message. The code only returns an error, and the serve loop stops reading.
- Section 6 of the protocol document gives payload lengths 32 and 16. A Ping of `bxp://health` takes 48 bytes
  (`RequestSize`), a response 24 (`ResponseSize`).
- schema/bxp_capnp.rs is older than schema/bxp.capnp: it lacks Ping and the status enum. Slot offsets and
  struct sizes come from it, enum ranges from schema/bxp.capnp and src/protocol.rs.

Two claims fail, and each has its exact condition and a failing instance.

- Counting responses does not correlate them with requests for arbitrary handlers.
  `Guarantees.CorrelationCondition`: in every run of every client each response carries the id of the
  request at its position, and at the end every admitted request has one, if and only if dispatching
  any request with a URI the server can receive answers it exactly once under its own id.
  `Guarantees.SilentMisleads` gives a handler, two requests, and the wrong correlation they end with.
- A sent request does not always arrive. `Messages.RequestCutoff` gives the URI length at which it stops
  doing so, in both layouts; `Messages.RefusedRequest` gives a request of 1,048,544 URI bytes that is sent
  and refused, and `Messages.LayoutDecides` one byte less, where the allocator decides.

## Model

| member | source | states |
|---|---|---|
| Bytes.LE16Value | schema/bxp_capnp.rs:214-216 | a 16-bit field is two bytes, the first of weight 1, the second of weight 256 |
| Bytes.LE32Value | src/client.rs:114-116 | a 32-bit number is written as four bytes whose weights are 1, 2^8, 2^16, 2^24 in this order |
| Bytes.FromLE32Value | src/server.rs:146-148 | any four bytes are read with the same weights |
| Bytes.LE32Octets | src/server.rs:232-232 | so the bytes written are the base-256 digits of the number, least significant first |
| Protocol.EmissionPlace | examples/file-transfer.rs:11-22 | each emission is the response or the data stream whose place is the number of those before it; there are no others |
| MessageBuilder.Builder.InitRoot | schema/bxp_capnp.rs:150-152 | a fresh message is the root pointer and zeroed sections of the struct's size |
| MessageBuilder.Builder.SetU32 | schema/bxp_capnp.rs:206-208 | overwrites exactly the four bytes of its slot in place; its getter sees the value, every other getter and pointer what it saw before |
| MessageBuilder.Builder.SetU16 | schema/bxp_capnp.rs:214-216 | overwrites exactly the two bytes of its slot in place, with the same effect on the getters |
| MessageBuilder.Builder.SetText | schema/bxp_capnp.rs:222-224 | links the pointer field to text appended to the segment, or to a new segment behind a far pointer; the text getter reads it back, the data section and other pointers are untouched |
| MessageBuilder.GettersAfterU32 | schema/bxp_capnp.rs:206-208 | a 32-bit setter is seen by its getter and by no 32-bit, 16-bit or pointer getter of other bytes |
| MessageBuilder.GettersAfterU16 | schema/bxp_capnp.rs:214-216 | the same for a 16-bit setter |
| MessageBuilder.GettersAfterText | schema/bxp_capnp.rs:222-224 | the text getter reads what the text setter wrote in either layout, and every other getter reads as before |
| MessageBuilder.BuildRequest | src/client.rs:104-110 | the setter calls of send_request leave the segments of the functional encoding |
| MessageBuilder.BuildResponse | src/server.rs:178-183 | the setter calls of send_response leave the segments of the functional encoding |
| CapnpProofs.MessageRoundTrip | src/server.rs:157-160 | any segment list written to a stream is read back, whatever follows it |
| CapnpProofs.MessageIgnoresTail | src/server.rs:154-160 | bytes left over in a payload never change what is read from it |
| CapnpProofs.TableIsPadded | src/server.rs:157-160 | the segment table takes four bytes per segment and four for the count, rounded up to a word |
| CapnpProofs.PointerRoundTrip | schema/bxp_capnp.rs:105-109 | struct, list and far pointers with any signed offset are read back from their words |
| CapnpProofs.PointerBits | schema/bxp_capnp.rs:105-109 | the kind, signed offset, sizes, count, landing pad and segment of any pointer are where the Encoding Spec puts them in the two halves of its word |
| CapnpProofs.WordRoundTrip | schema/bxp_capnp.rs:105-109 | conversely each such word is the word of what it parses to |
| CapnpProofs.RootAnywhere | src/server.rs:162-162 | the root struct is found at any signed offset or through one or two landing pads, with the section sizes its pointer gives |
| CapnpProofs.RootExact | src/server.rs:162-162 | get_root yields a struct if and only if it lies in bounds at the end of a laid path from the first word, double landing pads with any tag offset included; the null word yields the default struct |
| CapnpProofs.ShortStructDefaults | schema/bxp_capnp.rs:132-142 | fields a peer's struct is too short for read as 0, Fetch and the empty URI, whatever lies behind it |
| CapnpProofs.ReadTextExact | schema/bxp_capnp.rs:140-142 | an object reads as a text if and only if it is an in-bounds byte list holding that text and a NUL |
| CapnpProofs.TextAnywhere | schema/bxp_capnp.rs:140-142 | the URI getter finds its text before or behind the pointer, or through one or two landing pads |
| CapnpProofs.TextBehindExact | schema/bxp_capnp.rs:140-142 | over arbitrary segments: a pointer word reads as a text if and only if it is null and the text empty, or some laid path leads to a byte list holding the text and a NUL |
| Utf8Proofs.ValidIsEncoding | src/server.rs:172-172 | text is accepted as a string if and only if it encodes a sequence of Unicode scalar values |
| CapnpProofs.RawRequestDecodes | src/server.rs:162-173 | over every id, 16-bit action code and text: accepted exactly for the three actions with UTF-8 text, with the error of the first failing field otherwise |
| CapnpProofs.RequestRoundTrip | schema/bxp_capnp.rs:132-227 | every request in either layout, with anything behind it, decodes to itself |
| CapnpProofs.RawResponseDecodes | src/client.rs:137-145 | over every id and 16-bit code: five codes give the five statuses, all others are refused |
| CapnpProofs.ResponseRoundTrip | schema/bxp_capnp.rs:399-475 | every response, with anything behind it, decodes to itself |
| CapnpProofs.RequestImage | schema/bxp_capnp.rs:132-227 | the exact bytes of a one-segment request: segment table, root pointer, id, action, list pointer, URI, NUL padding |
| CapnpProofs.SplitRequestImage | schema/bxp_capnp.rs:132-227 | the exact bytes of a two-segment request, with its far pointer |
| CapnpProofs.ResponseImage | schema/bxp_capnp.rs:399-475 | the exact bytes of a response |
| CapnpProofs.RequestSize | src/client.rs:111-115 | payload length 32 (one segment) or 48 (two) plus the URI and NUL rounded up to words |
| CapnpProofs.PayloadSizeFits | src/client.rs:114-115 | payload lengths are whole words, grow with the URI, and stay below 2^32 up to the 29-bit list limit |
| CapnpProofs.ResponseSize | src/server.rs:184-189 | every response payload is 24 bytes |
| Framing.HeaderFaithful | src/client.rs:114-116 | the 32-bit header holds the length modulo 2^32 byte by byte, and reads back as the length exactly when the payload is below 2^32 bytes |
| Framing.FrameBytes | src/client.rs:111-116 | the header bytes, weighted 1, 2^8, 2^16, 2^24, add up to the payload length, and the payload follows as it is |
| Framing.FrameInPlace | src/client.rs:111-116 | reserve, append, overwrite equals length header followed by payload |
| Framing.NextOfFrame | src/server.rs:146-155 | a read off a frame and any tail gives payload and tail, or stops behind the header when over the cap |
| Framing.NextIsFrame | src/server.rs:146-155 | whatever a read takes off the front was a frame within the cap |
| Framing.PayloadsOfFrames | src/client.rs:111-117 | concatenated frames decode to their payloads followed by what the tail decodes to |
| Framing.FramesInjective | src/client.rs:111-117 | different payload lists give different byte strings |
| Framing.FramesPrefixFree | src/client.rs:111-117 | no frame is a proper prefix of another |
| Framing.FramesPrefix | src/client.rs:123-129 | whole frames at the front of a frame list are its first frames, and the rest is the rest |
| Framing.ReceiveResynchronises | src/server.rs:146-173 | with the payload present a receive call consumes exactly one frame whether or not it decodes; over the cap it consumes 4 bytes |
| Framing.ServerCutoff | src/server.rs:146-173 | over payloads of any bytes and length: up to 1,048,576 bytes the server takes the frame and decodes it, above it reports the length and leaves the payload |
| Framing.ClientTakesAnyLength | src/client.rs:123-146 | the client takes and decodes response payloads of every length a header can state |
| Framing.TruncatedFrame | src/server.rs:146-155 | a stream ending anywhere inside a frame is used up and reported as ended |
| Receiving.AcceptedOfFrames | src/server.rs:145-174 | good frames are accepted in order, then whatever the tail holds |
| Receiving.AcceptedSplits | src/server.rs:145-174 | any byte string is the frames of its accepted messages and a leftover, nothing lost or reordered |
| Receiving.LeftoverStops | src/server.rs:146-167 | the leftover starts with a truncated, oversized or undecodable frame |
| Receiving.AcceptedIsLongest | examples/file-transfer.rs:36-38 | a list of good frames is a prefix of the bytes if and only if it is a prefix of the accepted list |
| Receiving.AcceptedMonotone | src/server.rs:146-155 | a prefix of the bytes gives a prefix of the messages |
| Receiving.ReadFaithful | src/server.rs:146-160 | each exact read keeps bytes seen equal to accepted frames, held bytes and buffer |
| Receiving.SettledAccepts | src/server.rs:145-174 | a receiver with nothing left to read has accepted exactly the messages its bytes hold |
| Receiving.ChunkIndependence | src/server.rs:146-155 | any partition of the stream into chunks yields the messages of the whole |
| Messages.RequestCutoff | src/server.rs:150-152 | a written request is received as itself if and only if its URI has at most 1,048,543 bytes (one segment) or 1,048,527 (two); else TooLarge with the payload left unread |
| Messages.CutoffIsCap | src/server.rs:11-11 | those URI lengths are exactly where the payload passes the 1 MiB cap |
| Messages.ShortestRefused | src/server.rs:150-152 | every request with 1,048,544 URI bytes is refused, with the length reported |
| Messages.LayoutDecides | src/server.rs:150-152 | with 1,048,543 URI bytes the one-segment form is received and the two-segment form refused |
| Messages.RefusedRequest | src/server.rs:150-152 | such a refused request exists for every id and action |
| Messages.ResponseReceived | src/client.rs:123-146 | every sent response is received as itself, whatever follows |
| Messages.NullRootIsDefaultRequest | src/server.rs:162-173 | any message with a null root is a Fetch of the empty URI with id 0, so payloads are not unique |
| Messages.WritesInjective | src/client.rs:98-119 | different request lists never give the same bytes, whatever the layouts |
| Messages.ReceiveStep | src/server.rs:145-174 | one receive call takes the first message of the stream, leaves the others, and shortens the stream |
| Messages.ReceiveAllDelivers | examples/file-transfer.rs:36-38 | calling receive until it fails delivers exactly the messages of the stream |
| Messages.MessagesInWrites | src/server.rs:145-174 | a client's writes are handled request for request, up to the first one over the cap |
| Transport.RecvStream.ReadExact | src/server.rs:147-155 | fills the buffer with the next bytes across any arrival pieces, or drains the stream and fails |
| Transport.Copy | src/server.rs:233-233 | for any read sizes, appends exactly the source and uses it up |
| Transport.SendDataStream | src/server.rs:227-236 | the finished stream is the id followed by exactly the source |
| Transport.ReadDataStream | src/client.rs:180-188 | reads the id and leaves the cursor on the first payload byte; fails exactly below 4 bytes |
| Transport.CopyToEnd | examples/file-transfer.rs:58-59 | the downloaded buffer is all the stream held, in order |
| Transport.DataStreamRoundTrip | src/server.rs:199-236 | a data stream determines its id and its source |
| Server.ServerConnection.ReceiveRequest | src/server.rs:145-174 | result and unread bytes are those of the receive specification, for any chunking |
| Server.ServerConnection.SendResponse | src/server.rs:177-193 | appends exactly one frame with the encoded response to the control stream, leaves the data streams alone, and the control stream stays the frames of all responses emitted |
| Server.ServerConnection.SendData | src/server.rs:227-236 | adds one data stream, the id and then the whole source, behind those already sent; the control stream is untouched |
| Server.SentStream | src/server.rs:227-236 | the data stream of an emission is its id byte by byte and then its source, and what a reader of those bytes takes for id and payload is that id and that source |
| Client.ClientConnection.SendRequest | src/client.rs:98-119 | appends exactly one frame with the encoded request, and the control stream stays the frames of all requests sent, in order |
| Client.ClientConnection.ReceiveResponse | src/client.rs:123-146 | result and unread bytes are those of the receive specification with no cap |
| Router.BxpRouter.constructor | src/router.rs:50-54 | a new router has no registrations |
| Router.BxpRouter.Route | src/router.rs:56-65 | the nested map stays the one its registration history determines |
| Router.BxpRouter.HandleRequest | src/router.rs:67-78 | runs the handler last registered for the action and URI on the request itself, with its emissions and its verdict; without one it answers NotFound under the request's id and succeeds |
| Router.LastRegisteredIs | src/router.rs:56-65 | the last registration of a key is the one no later registration of that key follows |
| Router.NestedRefinesFlat | src/router.rs:60-63 | the nested map looks up as a flat list with the last registration winning |
| Router.RegisterAllNoEmptyInner | src/router.rs:60-63 | no inner map is ever empty |
| Router.RegistrationOrderIrrelevant | src/router.rs:56-65 | permuting registrations with distinct keys gives the same table |
| ServeLoop.Serve | examples/file-transfer.rs:36-38 | for any control bytes in any pieces the loop ends, handles exactly the requests they hold, in order, past handler errors |
| SharedRouter.ServeAll | examples/file-transfer.rs:32-42 | one router object, any connections, any schedule of loop turns: each connection has handled its own first requests, one a turn, whatever the others did, and the router is unchanged |
| FileTransfer.RunFetch | examples/file-transfer.rs:11-22 | the handler emits Success, then the file under the same id, and succeeds; the routed handler is the same |
| FileTransfer.Fetch | examples/file-transfer.rs:46-65 | a file is downloaded if and only if the answer is Success and the stream is the request's id followed by that file |
| DataPlane.StreamStep | src/server.rs:227-236 | every copy, delivery and read keeps each byte of preamble and source in exactly one place, in order |
| DataPlane.StreamAttribution | src/client.rs:180-188 | a reader sees its own stream's id and a prefix of its own source, all of it at the end |
| DataPlane.Conservation | src/client.rs:166-188 | deliveries are a sub-multiset of the openings at all times and equal them when all readers have ended |
| DataPlane.StreamProgress | src/server.rs:227-236 | a stream whose reader has not ended can always take a step |
| SystemInvariant.StepInv | examples/file-transfer.rs:36-38 | every step of client, network, server and data plane keeps the invariant |
| SystemInvariant.ReachableInv | examples/file-transfer.rs:36-38 | the invariant holds in every state of every run |
| Refinement.ResponsesRefineDispatch | src/server.rs:145-193 | for any client bytes and any schedule, decoded responses are a prefix of what dispatch answers to the requests in the bytes written so far |
| Refinement.QuiescentIsComplete | src/server.rs:145-193 | a connection that cannot move has emitted, answered and delivered exactly what dispatch says for the whole script |
| Refinement.DownloadsRefineDispatch | src/client.rs:180-188 | at every moment downloads are among the streams dispatch sends, and readers hold the right id and a prefix of the right source |
| Refinement.StreamsCarryWires | src/server.rs:227-236 | in every run the bytes of the i-th stream of the data plane are the i-th data stream the server wrote for its log |
| Progress.StepDecreases | examples/file-transfer.rs:36-38 | every step decreases a lexicographic measure of the work left |
| Progress.NoInfiniteRun | examples/file-transfer.rs:36-38 | no infinite sequence of states follows a schedule by enabled steps |
| Progress.EveryScheduleFails | examples/file-transfer.rs:36-38 | from any state, every infinite schedule has a finite part that cannot be run |
| Progress.EveryRunCanComplete | examples/file-transfer.rs:36-38 | from every reachable state some continuation ends with every request of the script answered and every stream delivered as dispatch says |
| Freedom.WritesAnytime | src/client.rs:98-119 | in every state, whatever is outstanding, any number of writes can follow one another |
| Freedom.ClientNeverWaits | src/client.rs:98-119 | for every script and k, some run has the first k writes made and nothing arrived, emitted or answered |
| Freedom.PiecesReachServer | src/server.rs:146-155 | in every state the bytes in flight can reach the server in any nonempty pieces, one by one |
| Freedom.PiecesReachClient | src/client.rs:123-136 | the same towards the client |
| Freedom.ServerTakesFrame | src/server.rs:145-174 | a server between handlers takes a frame that is there in any state of everything else, and its request's handler starts |
| Freedom.ClientTakesFrame | src/client.rs:123-146 | a client takes a frame that is there, of any length, in any state of everything else |
| Freedom.HandlerRuns | src/server.rs:177-236 | a running handler can emit everything and return while nothing of it is read |
| Views.ViewsExactly | src/server.rs:145-193 | some run shows given writes, bytes at the server, log, bytes at the client, decoded responses and downloads if and only if each is a prefix of what the one before it determines, the downloads being any of the streams in any order |
| Views.ReaderHolds | src/client.rs:180-188 | a reader can hold any prefix of its stream while all other streams stay where they are |
| Views.ReadersOverlap | src/client.rs:180-188 | in every possible view with two streams some run has one reader holding any given part of its source while the other has ended, whichever was sent first |
| Views.DownloadsInAnyOrder | src/client.rs:180-188 | from any state with all streams sent, any remaining downloads can come next in any order |
| Views.AnyPiecesToServer | src/server.rs:146-155 | however a prefix of the client's bytes is cut, some whole run brings exactly those pieces to the server |
| Views.AnyPiecesToClient | src/client.rs:123-136 | however a prefix of the answers is cut, some whole run brings exactly those pieces to the client |
| Guarantees.AnswersInOrder | src/server.rs:145-193 | for a client sending requests: responses are a prefix of dispatch over the requests sent so far, up to the first over the cap |
| Guarantees.SessionRoundTrip | src/client.rs:98-146 | what a client decodes from all a server sends for all it sent is dispatch's responses |
| Guarantees.CorrelationCondition | src/router.rs:67-78 | in every run of every client position correlates responses with requests, completely at the end, if and only if every dispatch of a receivable request echoes its id once |
| Guarantees.MisledRun | src/router.rs:67-78 | for any request that is not echoed once, a client sending just that request is misled |
| Guarantees.SilentMisleads | src/router.rs:67-78 | with one silent handler the first response of every finished run belongs to the second request |
| Guarantees.PositionalCorrelation | src/router.rs:67-78 | in every run with echoing handlers the i-th response is the i-th request's only answer, a missing route is NotFound at its position, responses never outnumber requests, and at the end every admitted request has one |
| Guarantees.MissingRoute | src/router.rs:72-76 | a missing route emits one NotFound, no data stream, and is no handler error |
| Guarantees.DataFollowsSuccess | examples/file-transfer.rs:11-22 | in every run with respond-first handlers, each data stream and each download follows a Success response with its id |
| Guarantees.DownloadsAreRequested | src/router.rs:72-76 | every download answers a request the client sent to an existing route |
| Guarantees.DownloadsAttributed | src/server.rs:227-236 | with handlers that stream under the request's id and a client with distinct ids, every download of every run belongs to exactly one request, the one with its id |
| Guarantees.HandlerErrorsIgnored | examples/file-transfer.rs:37-37 | route tables that differ only in which handlers fail have the same runs through the same states |
| Guarantees.SendsAreSequential | examples/file-transfer.rs:13-18 | a handler awaits each data stream, so in every run all but the newest are finished and all their bytes are with the reader or on the way |
| Guarantees.FetchRoutesQualify | examples/file-transfer.rs:11-22 | fetch handlers of any files meet the conditions of all run theorems, and dispatch on them never fails |
| Guarantees.TransferCompletes | examples/file-transfer.rs:28-65 | under every schedule the example ends with one Success and exactly the file, both under the chosen id |
| Connections.InterleavedRunsAreServed | examples/file-transfer.rs:32-42 | in every interleaving of any clients each connection's responses and downloads are those dispatch gives its own client's bytes, and a connection that cannot move is complete whatever the others do |
| Connections.NoInfiniteInterleaving | examples/file-transfer.rs:32-42 | no schedule of finitely many connections runs forever |
| Connections.EveryInterleavingFails | examples/file-transfer.rs:32-42 | every infinite interleaving has a finite part that cannot be run |
| Connections.InterleavingIndependence | examples/file-transfer.rs:32-42 | an interleaving runs if and only if each connection could run its steps alone, and each ends where it would alone |
| Connections.InterleavingsAgree | examples/file-transfer.rs:32-42 | interleavings with the same steps per connection end in the same states |

## Left out

- QUIC, TLS, certificates, ALPN, endpoints, keep-alive and flow-control windows (src/client.rs:30-81, src/server.rs:33-135): library plumbing; a stream is a reliable ordered byte string.
- `BxpServer::accept`, `wait_for_close`, `close`: thin wrappers; a connection starts established, and I/O failures other than end of stream do not occur.
- The async adapters of src/router.rs:8-42: type-level forwarding; a handler is a function of its request and cannot read from the connection or keep state.
- Library limits of the Cap'n Proto reader (segment count, traversal and nesting limits): not in this repository; a message within the cap stays far below the traversal limit, and more than 511 segments would be refused earlier than the model does.
- Where the allocator switches from one segment to two: not in this repository; every result quantifies over the choice.
- Finishing the control stream in the step system: the client's control stream stays open, as in the example; a finished stream is covered by ServeLoop.Serve.
- Client-to-server data streams inside the composed system: DataPlane and Transport are direction-neutral and cover them on their own.
- SharedRouter.ServeAll: a turn is one whole receive and handler call; interleaving inside a turn is covered by the step systems of Connections.
- Client.ClientConnection.SendRequest: requires |uri| <= MAX_URI, because the builder cannot represent text beyond the 29-bit list count and panics.
- Cap'n Proto reflection, benchmark timing and printing: no effect on the messages.
