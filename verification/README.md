# A verified model of the Globals driver and of the Node 0.6.19 libraries it ships

The repository is a small Mongo-like driver for the Globals database, with a copy of Node 0.6.19. This project models the parts
whose correctness is hardest to see by reading, and proves what their documentation, their tests or the standards they implement
promise. `dafny verify dfyconfig.toml` checks all of it.

| file | models |
|---|---|
| `Bootstring.dfy`, `Punycode.dfy`, `PunycodeRoundTrip.dfy`, `PunycodeForms.dfy` | `punycode.js` (RFC 3492): two nested-loop machines that have to run in lock-step |
| `Chunked.dfy`, `OutgoingSpec.dfy`, `PipelineSpec.dfy`, `HandlerCalls.dfy`, `HttpConnection.dfy` | the output side of `http.js`: buffering, flushing, chunked coding, pipelined responses taking turns on a socket |
| `AgentPool.dfy`, `HttpAgent.dfy` | the socket pool of `http.js` |
| `LinkList.dfy`, `ListRuns.dfy`, `IdleTimers.dfy`, `Timers.dfy` | `_linklist.js` and `timers.js`: idle timers that share one watcher per timeout, over intrusive circular lists in the heap |
| `Doubles.dfy`, `Ieee754.dfy`, `Ieee754Forms.dfy` | `buffer_ieee754.js`, with the one sum that doubles do not hold exactly rounded as they round it |
| `PosixPath.dfy`, `PathForms.dfy` | the POSIX half of `path.js` |
| `Base64.dfy` | base64 in `node_buffer.cc` |
| `Utf8Decoder.dfy` | `string_decoder.js` |
| `TagMerge.dfy` | highlighting in `sh_main.js` |
| `Framing.dfy`, `DriverProtocol.dfy`, `DriverPeers.dfy` | the wire protocol of `globalsd` |
| `CollectionIndex.dfy`, `CollectionContents.dfy`, `Collections.dfy` | the collection, its index and its queries in `index.js` and `query.js` |
| `Arithmetic.dfy`, `Results.dfy`, `Sequences.dfy`, `Text.dfy` | products and quotients, `Option` and `Result`, taking an element out of a list, splitting strings |

Where the source updates objects in place there is a pair of modules: functions on values with the theorems about them, and classes
whose methods are the source's, held to these functions. Everything outside the model is a parameter: the clock, what a callback
does (a script of calls), the estimate of a logarithm, JSON's printer and parser, what a database operation returns, the store's
way to update an object. JavaScript numbers are unbounded integers, or reals where they have fractions; the guards of the source
keep the integers far below 2^53. In `buffer_ieee754.js` products and quotients are by powers of two and differences are of
neighbours, all of them exact, and the powers that are too large for a double decide no branch; the sum that rounds a value is
rounded to 53 bits. Unsigned differences of the C++ code wrap around as there. What the theorems about runs and codecs ask for can be
had: `ListRuns.NewRings` and `DriverProtocol.OpenedInv` are where runs begin, and `DriverProtocol.SomeRepliesSound` gives codecs.

The modules called Forms or Contents, and `HandlerCalls`, say what the functions of the model amount to in the numbers, characters and
calls of the source and its standards, with instances in full.

Things the source does not do, found on the way and proved as they are:

- `punycode.decode(encode(s))` is not `s` for every string: `utf16encode` takes a code point whose low sixteen bits are those of a
  surrogate for one. The round trip holds exactly when there is none (`PunycodeRoundTrip.SmallRoundTrip`, with an instance in
  `PunycodeRoundTrip.RoundTripFails`).
- `response.write` after `response.end` is not ignored while the response waits for its turn. The client still sees whole responses
  in order, whatever comes next, if and only if such a call adds nothing or the response will never be sent, the connection being
  closed by then (`PipelineSpec.OrderKept`, with an instance in `PipelineSpec.WriteWhileWaiting`).
- A reply without a body (to HEAD, or with status 204 or 304) whose handler set `Transfer-Encoding: chunked` is followed by a last
  chunk (http.js:459, 516, 699-700, 781, 885), where the client looks for the next reply. A client that counts receives a reply if and
  only if the count is right and, without a body, the header does not say chunked (`PipelineSpec.CountedReceived`, with an instance in
  `PipelineSpec.BodylessChunkedIsLost`).
- A float is rounded to nearest, but a value halfway between two floats goes to the larger and not to the even one
  (`Ieee754.WrittenNearest`, `Ieee754.NoneNearer`, with an instance in `Ieee754.TieGoesUp`): the result is that of rounding to even
  just when the value is not halfway above an even float (`Ieee754.WrittenEven`). Where the logarithm was estimated one too low, a value
  from a half to three quarters of a unit above a float goes down, and every other value that rounding takes to the next power of two
  comes out at half its size; `Ieee754.EstimateWillDo` is the exact condition.
- An index that was ensured but not built hides the objects that it does not have, as soon as it has one with the value: finding
  through it agrees with a scan just when it has all of them, or none (`CollectionIndex.FindIsScan`, `CollectionIndex.FindIsScanOnlyIf`,
  with an instance in `CollectionIndex.UnbuiltIndexHides`).
- A timer whose callback re-arms it fires once per run of its list from 2 milliseconds on, and again in the same run below
  (`IdleTimers.RearmedFires`).
- A list is closed when a callback unenrolls its last item, and the same callback may then start another item for that timeout, as
  `clearTimeout` and `setTimeout` do. The drain that is still running takes that item's new list out of the table: the list is
  forgotten, and the next item makes another one with another watcher (`IdleTimers.ClearedAndSet`). Nothing else forgets a list
  (`IdleTimers.ActForgetsNone`, `IdleTimers.OverForgets`, `IdleTimers.DrainForgets`), and the items on forgotten lists are watched in time
  like all others (`IdleTimers.EveryItemIsWatched`).
- `shift` on an empty list takes the list itself apart (`ListRuns.ShiftEmpty`).

## Model

| member | source | states |
|---|---|---|
| Bootstring.Adapt | node_v0.6.19/node/lib/punycode.js:195-203 | the loop computes the recursive bias adaptation of section 6.1 of RFC 3492, the first time and later |
| Bootstring.AdaptIgnoresCount | node_v0.6.19/node/lib/punycode.js:391-425 | for the deltas between repeats of one code point the adapted bias does not depend on the count, so the count the encoder caches per pass does no harm |
| Bootstring.ValueOfDigits | node_v0.6.19/node/lib/punycode.js:273-299 | at every bias every number is read back from its digits whatever follows: the digits are self-delimiting |
| Bootstring.DigitsOfValue | node_v0.6.19/node/lib/punycode.js:408-421 | no number has a second spelling: the digits read are those that would have been written |
| Punycode.Utf16Decode | node_v0.6.19/node/lib/punycode.js:109-127 | pairs become code points, and an unpaired surrogate is an error |
| Punycode.Utf16Encode | node_v0.6.19/node/lib/punycode.js:138-152 | code points become units, and one whose low sixteen bits are a surrogate's is an error |
| Punycode.ReadInteger | node_v0.6.19/node/lib/punycode.js:273-299 | the decoder's digit loop, guards and all, is the recursive reader of the specification |
| Punycode.Decode | node_v0.6.19/node/lib/punycode.js:226-319 | the decoder is the state machine of the specification, errors included |
| Punycode.WriteInteger | node_v0.6.19/node/lib/punycode.js:408-421 | the encoder's digit loop appends the spelling of delta, and ends |
| Punycode.RunPass | node_v0.6.19/node/lib/punycode.js:399-428 | one pass over the input with the cached count is one pass of the specification, or overflows where that does |
| Punycode.Encode | node_v0.6.19/node/lib/punycode.js:328-433 | the encoder is the state machine of the specification, errors included |
| PunycodeRoundTrip.Utf16RoundTrip | node_v0.6.19/node/lib/punycode.js:109-152 | re-encoding a well-formed string gives it back exactly when no code point masks to a surrogate, and an error otherwise |
| PunycodeRoundTrip.ReadIntIsValueOf | node_v0.6.19/node/lib/punycode.js:273-299 | reading adds the value of the digits times the weight, unless a guard fires, and no guard fires on small values |
| PunycodeRoundTrip.SameBias | node_v0.6.19/node/lib/punycode.js:391-425 | encoder and decoder adapt to the same bias after every code point though they pass different counts |
| PunycodeRoundTrip.EmitMatchesAdvance | node_v0.6.19/node/lib/punycode.js:266-317 | after one emission the decoder that read it is in step with the encoder again |
| PunycodeRoundTrip.EncodeInStep | node_v0.6.19/node/lib/punycode.js:378-431 | from states in step, the decoder reproduces the code points from what the encoder writes, or overflows, and that only on long inputs |
| PunycodeRoundTrip.DecodedEncodedPoints | node_v0.6.19/node/lib/punycode.js:226-433 | decoding the encoding of any code points gives them back unless the decoder's overflow guard fires (sections 6.2 and 6.3 of RFC 3492) |
| PunycodeRoundTrip.DecodedEncoded | node_v0.6.19/node/lib/punycode.js:226-433 | the same on strings: what decodes at all decodes to the string encoded |
| PunycodeRoundTrip.SmallRoundTrip | node_v0.6.19/node/lib/punycode.js:226-433 | up to 55 code points no guard fires, and the round trip holds if and only if no code point masks to a surrogate |
| PunycodeRoundTrip.RoundTripFails | node_v0.6.19/node/lib/punycode.js:138-152 | U+1D800 is encoded and cannot be decoded |
| PunycodeForms.DigitsAreLetters | node_v0.6.19/node/lib/punycode.js:184-188 | digits 0 to 25 are written a to z, and 26 to 35 are written 0 to 9 |
| PunycodeForms.LettersAreDigits | node_v0.6.19/node/lib/punycode.js:163-171 | letters of either case and decimal digits are read as these digits, and every other character as the source's arithmetic has it |
| PunycodeForms.MaskIs | node_v0.6.19/node/lib/punycode.js:141-143 | what utf16encode takes for a surrogate is a value whose remainder by 0x10000 is from 0xD800 to 0xDFFF |
| PunycodeForms.PairIs | node_v0.6.19/node/lib/punycode.js:109-127 | two units of a surrogate pair are 0x10000 plus ten bits of each |
| PunycodeForms.ThresholdIs | node_v0.6.19/node/lib/punycode.js:286 | the threshold is the distance of the position from the bias, at least 1 and at most 26 (section 6.2 of RFC 3492) |
| PunycodeForms.AdaptedBiasIs | node_v0.6.19/node/lib/punycode.js:195-203 | the bias in closed form: with q the damped delta over 35^j, j the least with q <= 455, it is 36 j + 36 q / (q + 38); damped is by 700 the first time and else by 2 (section 6.1 of RFC 3492) |
| PunycodeForms.EncodedForm | node_v0.6.19/node/lib/punycode.js:359-375 | every encoding is the code points below 128, then a hyphen unless there are none, then characters in a-z and 0-9 alone |
| PunycodeForms.DecodedForm | node_v0.6.19/node/lib/punycode.js:246-264 | decoding starts with the characters before the last hyphen, none of them above ASCII, and from the point 128 with the bias 72 behind it; without one, or with none but at the beginning, all of the input is numbers |
| PunycodeForms.ReadIntRefuses | node_v0.6.19/node/lib/punycode.js:275-282 | an input that ends within a number is invalid, and a character above z overflows |
| PunycodeForms.OneForeign | node_v0.6.19/node/lib/punycode.js:378-431 | the encoding of any word with one code point beyond ASCII, in full: the digits spell (c - 128) times the length of the word plus the characters before c |
| PunycodeForms.OneForeignOverflows | node_v0.6.19/node/lib/punycode.js:385-403 | encoding such a word overflows if and only if that number is more than 2147483647 |
| PunycodeForms.ReadIntGuard | node_v0.6.19/node/lib/punycode.js:273-299 | the exact guard of the digit loop: it overflows if and only if the sum or the weight of the last digit is more than 2147483647 |
| PunycodeForms.AdvanceGuard | node_v0.6.19/node/lib/punycode.js:301-317 | the number read goes round the output, the point grows by the laps and is inserted where the last one ends, unless the point exceeds 2147483647 |
| PunycodeForms.Buecher | node_v0.6.19/node/test/simple/test-punycode.js:47 | "Bücher" is encoded as "Bcher-kva" and back |
| PunycodeForms.Nihongo | node_v0.6.19/node/test/simple/test-punycode.js:51 | U+65E5 U+672C U+8A9E is encoded as "wgv71a119e" and back, the bias being adapted three times |
| Chunked.DechunkBody | node_v0.6.19/node/lib/http.js:594-717 | a receiver of section 3.6.1 of RFC 2616 reads body and trailer off the chunks and stops where the message ends, whatever follows |
| Chunked.HexIs | node_v0.6.19/node/lib/http.js:594-630 | a chunk size is written in lower-case digits to the base 16, without leading zeros, and is the number it stands for |
| Chunked.ChunkIs | node_v0.6.19/node/lib/http.js:594-630 | a chunk in characters: size, 13 and 10, data, 13 and 10; the last one is a zero, and the trailer in place of the data |
| Chunked.TrailerIs | node_v0.6.19/node/lib/http.js:633-650 | a trailer field in characters: name, colon, space, value, 13 and 10 |
| OutgoingSpec.BufferedPends | node_v0.6.19/node/lib/http.js:407-431 | merging strings in the output queue changes no byte of what is pending |
| OutgoingSpec.SendAdds | node_v0.6.19/node/lib/http.js:366-404 | a send adds its bytes, with the header before the first, to what is sent and pending; on a live connection nothing stays pending, on another nothing is sent |
| OutgoingSpec.WriteAdds | node_v0.6.19/node/lib/http.js:594-630 | a string in one send and a buffer in three add the same chunk |
| OutgoingSpec.HotPath | node_v0.6.19/node/lib/http.js:666-691 | the hot path of end writes the bytes of the general path and leaves the same message |
| OutgoingSpec.WriteHolds | node_v0.6.19/node/lib/http.js:594-630 | write keeps: bytes delivered then bytes pending are the wire form of what the handler said |
| OutgoingSpec.EndHolds | node_v0.6.19/node/lib/http.js:653-717 | end keeps it, for any data and by any path, and ends the wire form with the last chunk and trailer |
| OutgoingSpec.FlushHolds | node_v0.6.19/node/lib/http.js:732-769 | flushing moves bytes from pending to delivered and changes nothing else |
| OutgoingSpec.WriteAfterEnd | node_v0.6.19/node/lib/http.js:594-630 | a write after end keeps the wire form if and only if it adds nothing |
| PipelineSpec.AssignInv | node_v0.6.19/node/lib/http.js:799-806 | giving the socket to the next response keeps the connection in order, however many queued responses are already complete |
| PipelineSpec.FinishInv | node_v0.6.19/node/lib/http.js:1578-1597 | the finish listener keeps the connection in order, and after the last response closes it |
| PipelineSpec.IncomingInv | node_v0.6.19/node/lib/http.js:1561-1574 | a new request keeps the connection in order, also on a closed one |
| PipelineSpec.DoInv | node_v0.6.19/node/lib/http.js:594-717 | a handler's call on any response keeps the invariant if and only if it does not write to a response that has ended, waits and will be sent |
| PipelineSpec.RunInv | node_v0.6.19/node/lib/http.js:1561-1597 | for every interleaving of requests and such calls the socket carries whole responses in request order and at most one partial one, and finishes come once each, in order (section 8.1.2.2 of RFC 2616) |
| PipelineSpec.OrderKept | node_v0.6.19/node/lib/http.js:594-630 | what can be seen on the socket stays in order under every later polite run if and only if the call is polite: an impolite one is exposed by ending the responses before |
| PipelineSpec.ClosedIsPolite | node_v0.6.19/node/lib/http.js:1578-1597 | on a connection the server has closed every call is polite |
| PipelineSpec.WriteWhileWaiting | node_v0.6.19/node/lib/http.js:594-630 | two requests, the second answered first and written to once more: the socket is out of order once the first has ended |
| PipelineSpec.FinishedWhen | node_v0.6.19/node/lib/http.js:1578-1597 | a response has finished if and only if it and all before it have ended and none before it closed the connection |
| PipelineSpec.ReceiveWholes | node_v0.6.19/node/lib/http.js:594-717 | a client that frames replies by the first rules that apply (section 4.4 of RFC 2616) reads them off consecutive responses one by one: without a body, chunked, counted, or ended by the connection |
| PipelineSpec.CountedReceived | node_v0.6.19/node/lib/http.js:653-717 | a finished reply that the client counts, bodyless ones included, is received, whatever follows, if and only if the count is right and nothing is chunked |
| PipelineSpec.BodylessChunkedIsLost | node_v0.6.19/node/lib/http.js:693-701 | two requests, the first answered without a body under a chunked header: the client cannot read the second reply |
| PipelineSpec.Delivered | node_v0.6.19/node/lib/http.js:1561-1597 | end to end: off the socket's bytes a client reads, in order, the body and trailer every handler gave, whatever mix of framings, if replies without a body do not say chunked, and what remains begins the next response |
| HandlerCalls.NotedIs | node_v0.6.19/node/lib/http.js:594-717 | one call: a write adds its bytes, trailers replace those before, end adds its data, and nothing counts after it; a response without a body gets none |
| HandlerCalls.RunTold | node_v0.6.19/node/lib/http.js:1561-1597 | after every run the k-th response has the header of the k-th request, and holds exactly the bytes and trailers that the calls on it gave until end |
| HandlerCalls.DeliveredCalls | node_v0.6.19/node/lib/http.js:1561-1597 | end to end from the calls: however requests and polite calls follow each other, the client reads, in the order of its requests, the bytes each handler wrote until it ended its reply, and the trailers it gave last |
| HttpConnection.ServerResponse.Buffer | node_v0.6.19/node/lib/http.js:407-431 | the output queue becomes that of the specification |
| HttpConnection.ServerResponse.WriteRaw | node_v0.6.19/node/lib/http.js:383-404 | the drain loop and the write make the specification's message and socket bytes |
| HttpConnection.ServerResponse.Send | node_v0.6.19/node/lib/http.js:366-380 | the header goes out as in the specification |
| HttpConnection.ServerResponse.Write | node_v0.6.19/node/lib/http.js:594-630 | the message and the socket's bytes are those of the specification |
| HttpConnection.ServerResponse.AddTrailers | node_v0.6.19/node/lib/http.js:633-650 | the loop concatenates the trailer's lines |
| HttpConnection.ServerResponse.End | node_v0.6.19/node/lib/http.js:653-717 | the specification's message and bytes on both paths; finish is due just when the message ended now with nothing pending in its turn; no missing connection is dereferenced |
| HttpConnection.ServerResponse.Flush | node_v0.6.19/node/lib/http.js:732-769 | the specification's flush; finish is due just when nothing stays pending of an ended message |
| HttpConnection.ServerResponse.AssignSocket | node_v0.6.19/node/lib/http.js:799-806 | the response is current on the socket and flushed |
| HttpConnection.Connection.Retire | node_v0.6.19/node/lib/http.js:1578-1586 | the order assertion never fails: the first incoming request is the finished response's |
| HttpConnection.Connection.Finish | node_v0.6.19/node/lib/http.js:1578-1597 | the objects follow the specification through a whole cascade of finishes |
| HttpConnection.Connection.OnIncoming | node_v0.6.19/node/lib/http.js:1561-1575 | the objects follow the specification, and stay valid |
| HttpConnection.Connection.Write | node_v0.6.19/node/lib/http.js:594-630 | the objects follow the specification, and stay valid if and only if the call is polite |
| HttpConnection.Connection.End | node_v0.6.19/node/lib/http.js:653-717 | the objects follow the specification, and stay valid |
| AgentPool.AddRequestInv | node_v0.6.19/node/lib/http.js:944-959 | a new request keeps every pool within its limit, has others wait only at the limit, and keeps the order |
| AgentPool.FreeInv | node_v0.6.19/node/lib/http.js:920-936 | a freed socket goes to the request waiting longest or is destroyed, and is in neither case destroyed already |
| AgentPool.RemoveInv | node_v0.6.19/node/lib/http.js:990-1006 | a pooled socket that goes is replaced for the request waiting longest, within the limit |
| AgentPool.RemoveStranger | node_v0.6.19/node/lib/http.js:990-1006 | removing a socket that is not pooled keeps the limit if and only if no request waits |
| AgentPool.AddServes | node_v0.6.19/node/lib/http.js:944-959 | below the limit a request is handed a new socket at once, and at the limit it waits behind the others |
| AgentPool.FreeServes | node_v0.6.19/node/lib/http.js:920-936 | the request that has waited longest is handed the free socket; with none, the socket is destroyed |
| AgentPool.RemoveServes | node_v0.6.19/node/lib/http.js:990-1006 | the socket is in the pool no more, the others are, and the request that has waited longest is handed a new one |
| AgentPool.RunInv | node_v0.6.19/node/lib/http.js:914-1006 | in every run sockets per name stay within the limit, requests wait only at it, and requests served then requests waiting are the requests added, in order: none lost, none twice, none overtaken |
| HttpAgent.Agent.constructor | node_v0.6.19/node/lib/http.js:914-919 | no limit, or zero, means five; the pools start in order |
| HttpAgent.Agent.AddRequest | node_v0.6.19/node/lib/http.js:944-959 | the tables follow the specification and keep its invariant |
| HttpAgent.Agent.OnFree | node_v0.6.19/node/lib/http.js:920-936 | the tables follow the specification |
| HttpAgent.Agent.RemoveSocket | node_v0.6.19/node/lib/http.js:990-1006 | the tables follow the specification, and keep its invariant if the socket was pooled |
| LinkList.RemoveFromRing | node_v0.6.19/node/lib/_linklist.js:47-59 | removing an item of a list leaves a circular list of the others in their order, and the item unlinked |
| LinkList.InsertIntoRing | node_v0.6.19/node/lib/_linklist.js:63-70 | inserting an item that is on no list makes it the newest |
| LinkList.RingStays | node_v0.6.19/node/lib/_linklist.js:22-76 | a list whose links did not change is the list it was |
| LinkList.Init | node_v0.6.19/node/lib/_linklist.js:22-26 | the heap's links become those of an empty list |
| LinkList.Peek | node_v0.6.19/node/lib/_linklist.js:30-34 | the oldest item, or null just when there is none |
| LinkList.IsEmpty | node_v0.6.19/node/lib/_linklist.js:73-76 | true just when the list has no item |
| LinkList.Remove | node_v0.6.19/node/lib/_linklist.js:47-59 | the heap's links change as in the specification, and no others |
| LinkList.Append | node_v0.6.19/node/lib/_linklist.js:63-70 | the heap's links change as in the specification, from wherever the item was |
| LinkList.Shift | node_v0.6.19/node/lib/_linklist.js:38-43 | the oldest item, unlinked |
| ListRuns.StepRings | node_v0.6.19/node/lib/_linklist.js:22-76 | every call, on any of any number of lists, does to the lists what it is for and keeps each a ring of its items, with no node on two |
| ListRuns.RunRings | node_v0.6.19/node/lib/_linklist.js:22-76 | after every run of calls the links are exactly the lists the calls amount to, items moving between lists included |
| ListRuns.ShiftTakesOldest | node_v0.6.19/node/lib/_linklist.js:38-43 | shift takes the oldest item of its list and changes no other list |
| ListRuns.ShiftEmpty | node_v0.6.19/node/lib/_linklist.js:38-43 | shift on an empty list unlinks the list, which is no list after that |
| ListRuns.Call | node_v0.6.19/node/lib/_linklist.js:22-76 | the heap's links change as in the run |
| IdleTimers.ActInv | node_v0.6.19/node/lib/timers.js:114-154 | active, enroll and unenroll keep every list, in the table or not, sorted by start and watched in time |
| IdleTimers.ActiveIs | node_v0.6.19/node/lib/timers.js:50-154 | an item with a timeout is started now and goes to the end of the list for its timeout, which is made, with a watcher for that time, if there is none |
| IdleTimers.UnenrollIs | node_v0.6.19/node/lib/timers.js:114-127 | the item is off its list, its timeout is -1, and the list for its timeout goes if it is empty now |
| IdleTimers.EnrollIs | node_v0.6.19/node/lib/timers.js:131-138 | the item gets the timeout, and is on no list |
| IdleTimers.RearmedFires | node_v0.6.19/node/lib/timers.js:75-100 | an item that re-arms itself is fired twice by a run of its list if its timeout is below 2 and its list is the one in the table, and else once |
| IdleTimers.DrainFires | node_v0.6.19/node/lib/timers.js:68-106 | for timeouts of at least 2 a drain fires exactly the items due when it began, oldest first, but for those an earlier callback re-armed or took off |
| IdleTimers.DrainFiresDue | node_v0.6.19/node/lib/timers.js:68-106 | for every timeout, what a drain fires has a callback, and was due when the drain began or was started by a callback of it |
| IdleTimers.FiresInOrder | node_v0.6.19/node/lib/timers.js:75-100 | what is fired was due, and each item once, in the order of the list |
| IdleTimers.FiresComplete | node_v0.6.19/node/lib/timers.js:75-100 | a due item with a callback that was not fired was re-armed or taken off by a callback that was |
| IdleTimers.WaitingIs | node_v0.6.19/node/lib/timers.js:75-87 | an item waits to be fired if and only if it is on the list and now - start + 1 >= timeout |
| IdleTimers.WaitedIsDue | node_v0.6.19/node/lib/timers.js:75-154 | an item made active waits to be fired some milliseconds later if and only if they are at least its timeout less one |
| IdleTimers.NoneEarly | node_v0.6.19/node/lib/timers.js:68-106 | for timeouts of at least 2 every item that a drain fires has now - start + 1 >= timeout in the state it began in |
| IdleTimers.NoneMissed | node_v0.6.19/node/lib/timers.js:68-106 | and every item with that and a callback is fired, unless a callback that ran acted on it before |
| IdleTimers.DrainRewatches | node_v0.6.19/node/lib/timers.js:75-82 | the watcher is started again for the oldest item's start + timeout - now |
| IdleTimers.DrainInv | node_v0.6.19/node/lib/timers.js:68-106 | a drain, of any list, also a forgotten one, leaves every list watched in time and nothing on its own that is due at the time it began |
| IdleTimers.RunInv | node_v0.6.19/node/lib/timers.js:50-154 | every run of operations, turns of the event loop and drains, whatever the callbacks do, keeps every list sorted and watched in time |
| IdleTimers.EveryItemIsWatched | node_v0.6.19/node/lib/timers.js:50-154 | one watcher per list does for one timer per item: after every run each item that is on a list, in the table or forgotten, is on one whose watcher goes off no later than its start plus its timeout |
| IdleTimers.RunStocked | node_v0.6.19/node/lib/timers.js:114-154 | between operations no list in the table is empty, after any run: unenroll and the end of a drain close the empty ones |
| IdleTimers.ActForgetsNone | node_v0.6.19/node/lib/timers.js:114-154 | active, enroll and unenroll leave no list behind that is not in the table |
| IdleTimers.OverForgets | node_v0.6.19/node/lib/timers.js:102-105 | the end of a drain forgets a list if and only if it is another one that the table has for the same timeout |
| IdleTimers.DrainForgets | node_v0.6.19/node/lib/timers.js:68-106 | a whole drain forgets no list but one for its own timeout |
| IdleTimers.ClearedAndSet | node_v0.6.19/node/lib/timers.js:68-154 | a callback that unenrolls the last item and starts another for the same timeout leaves it on a list that is forgotten, with its watcher started |
| Timers.TakenLinked | node_v0.6.19/node/lib/timers.js:114-127 | taking an item off its list leaves every list a ring of its own items, and the item on none |
| Timers.PutLinked | node_v0.6.19/node/lib/timers.js:109-111 | an item put at the end of a list leaves every list a ring of its own items |
| Timers.CreatedLinked | node_v0.6.19/node/lib/timers.js:56-66 | a new list is an empty ring, and disturbs no other |
| Timers.Module.Insert | node_v0.6.19/node/lib/timers.js:50-111 | the heap follows the specification, a list and its watcher being made on demand |
| Timers.Module.Active | node_v0.6.19/node/lib/timers.js:143-154 | the heap follows the specification, also within a drain of the item's list |
| Timers.Module.Unenroll | node_v0.6.19/node/lib/timers.js:114-127 | the heap follows the specification, an empty list going with its watcher |
| Timers.Module.Enroll | node_v0.6.19/node/lib/timers.js:131-138 | the heap follows the specification, from wherever the item was, also in a callback of its own list |
| Timers.Module.OnTimeout | node_v0.6.19/node/lib/timers.js:68-106 | the draining loop ends, for every timeout, and state and fired items are those of the specification, also where a callback closes the list, or closes it and starts items for its timeout again |
| Doubles.SumFloor | node_v0.6.19/node/lib/buffer_ieee754.js:87-91 | the sum of a double and a half less next to nothing, rounded to 53 bits and cut off, is the exact sum with the half itself, cut off |
| Ieee754.FieldsOf | node_v0.6.19/node/lib/buffer_ieee754.js:83-108 | the fields written for any double are, as one code, its value in units of the last place plus a half, or a quarter if the estimate was low, cut off |
| Ieee754.FieldsOfValue | node_v0.6.19/node/lib/buffer_ieee754.js:83-108 | every representable magnitude, normal, subnormal or zero, is split into its own fields, for every estimate of its logarithm at most one away from the floor |
| Ieee754.WrittenNearest | node_v0.6.19/node/lib/buffer_ieee754.js:79-116 | any double written as a float, normal or subnormal, underflowing or overflowing, reads back as the nearest float, ties to the larger, if and only if the estimate of its logarithm will do |
| Ieee754.NoneNearer | node_v0.6.19/node/lib/buffer_ieee754.js:79-116 | no float is nearer to the value than that one, and none as near is larger |
| Ieee754.WrittenEven | node_v0.6.19/node/lib/buffer_ieee754.js:79-116 | with an estimate that will do, the float read back is the one that ties-to-even gives (section 4.3.1 of IEEE 754-2008) if and only if the value is not halfway above an even float |
| Ieee754.TieGoesUp | node_v0.6.19/node/lib/buffer_ieee754.js:79-116 | halfway between one and the next float the next one is written, unless the estimate is one too low |
| Ieee754.DecodedPacked | node_v0.6.19/node/lib/buffer_ieee754.js:33-69 | reading gives the number whose fields the bytes hold, in either byte order, infinities and NaN included |
| Ieee754.RoundTrip | node_v0.6.19/node/lib/buffer_ieee754.js:33-116 | what is written for a number of the format reads back as that number: formats 23/4 and 52/8, both byte orders, signed zero, every estimate at most one away (section 3.4 of IEEE 754-2008) |
| Ieee754.FieldsSound | node_v0.6.19/node/lib/buffer_ieee754.js:87-108 | no value whatever gives a negative field |
| Ieee754Forms.SingleIs | node_v0.6.19/node/lib/buffer_ieee754.js:33-69 | four bytes read as a float: sign bit, eight bits of exponent biased by 127, twenty-three of mantissa, in either byte order, subnormals, infinities and NaN included |
| Ieee754Forms.DoubleIs | node_v0.6.19/node/lib/buffer_ieee754.js:33-69 | eight bytes read as a double: sign bit, eleven bits of exponent biased by 1023, fifty-two of mantissa |
| Ieee754Forms.SpecialFields | node_v0.6.19/node/lib/buffer_ieee754.js:79-82 | infinities are written with all ones in the exponent, 255 or 2047, and no mantissa, and NaN with a mantissa of one |
| Ieee754Forms.ZeroReadsBack | node_v0.6.19/node/lib/buffer_ieee754.js:71-116 | zero is read back with its sign, whatever the estimate of a logarithm that it does not have |
| Ieee754Forms.Exp2Is | node_v0.6.19/node/lib/buffer_ieee754.js:83-108 | `Exp2`, in which the other rows are put, is 1 at 0 and doubles from each integer to the next |
| Ieee754Forms.RoundedIs | node_v0.6.19/node/lib/buffer_ieee754.js:87-91 | a rounded sum is a number of 53 bits, the nearest one or the even one of two |
| Ieee754.ReadIEEE754 | node_v0.6.19/node/lib/buffer_ieee754.js:33-69 | the reading loops compute the number the bytes stand for |
| Ieee754.WriteFields | node_v0.6.19/node/lib/buffer_ieee754.js:110-116 | the writing loops, on fractions divided by 256, pack the fields and touch no other byte |
| Ieee754.WriteIEEE754 | node_v0.6.19/node/lib/buffer_ieee754.js:71-116 | the bytes hold the fields of the value, and no other byte changes |
| PosixPath.NormalizeArray | node_v0.6.19/node/lib/path.js:30-54 | the right-to-left splicing pass computes the left-to-right stack of '.' and '..' |
| PosixPath.WalkedAppend | node_v0.6.19/node/lib/path.js:30-54 | walking parts one after the other composes: the algebra that lets the pass run backwards |
| PosixPath.DotsLead | node_v0.6.19/node/lib/path.js:30-54 | no '.' is left, and '..' only in the leading run, which is dropped when above the root is not allowed |
| PosixPath.StackTwice | node_v0.6.19/node/lib/path.js:30-54 | normalizing parts twice is normalizing once |
| PosixPath.LeadIsLand | node_v0.6.19/node/lib/path.js:30-54 | which directory parts lead to, from anywhere, depends on their normal form only |
| PosixPath.Normalize | node_v0.6.19/node/lib/path.js:304-321 | the method computes the normal form the next two rows are about |
| PosixPath.NormalizeTwice | node_v0.6.19/node/lib/path.js:304-321 | normalize is idempotent on every string |
| PosixPath.NormalizeKeepsDirectory | node_v0.6.19/node/lib/path.js:304-321 | a normalized path leads from every directory where the path leads |
| PosixPath.Resolve | node_v0.6.19/node/lib/path.js:275-300 | resolve returns where a sequence of cd commands leads, from the root; a relative path only if nothing is absolute |
| PosixPath.Relative | node_v0.6.19/node/lib/path.js:335-374 | the way from the one directory up to the common one and down to the other |
| PosixPath.BetweenLeads | node_v0.6.19/node/lib/path.js:355-373 | that way leads from the one directory to the other |
| PosixPath.RelativeLeadsBack | node_v0.6.19/node/lib/path.js:275-374 | resolve(from, relative(from, to)) is where resolve(to) is, for all paths and every absolute working directory |
| PathForms.PartsAre | node_v0.6.19/node/lib/path.js:304-312 | any strings joined by slashes are taken apart into those that are not empty |
| PathForms.AbsoluteIs | node_v0.6.19/node/lib/path.js:304-306 | a path is absolute if it begins with a slash, character 47, and keeps one at its end |
| PathForms.Entering | node_v0.6.19/node/lib/path.js:30-54 | '.' stays, '..' leads to the parent, in the root to the root, and a name into a directory |
| PathForms.BetweenIsShortest | node_v0.6.19/node/lib/path.js:355-373 | no parts that lead from the one directory to the other are fewer than those of relative |
| PathForms.BeyondRoot | node_v0.6.19/node/lib/path.js:304-321 | "/../a" is normalized to "/a" |
| PathForms.Settled | node_v0.6.19/node/lib/path.js:304-321 | "a/./b/../c" is normalized to "a/c" |
| PathForms.Above | node_v0.6.19/node/lib/path.js:304-321 | "../a/" stays "../a/" |
| PathForms.Here | node_v0.6.19/node/lib/path.js:304-321 | "a/.." is normalized to "." |
| PathForms.ResolvesVarFile | node_v0.6.19/node/test/simple/test-path.js:226 | from any working directory "/var/lib", "../" and "file/" lead to "/var/file" |
| Base64.RoundTrip | node_v0.6.19/node/src/node_buffer.cc:306-375 | whatever has the digits of an encoding, other characters in between or not, stands for the bytes encoded (section 4 of RFC 4648) |
| Base64.JunkIsSkipped | node_v0.6.19/node/src/node_buffer.cc:609-635 | characters that are not digits may be put in anywhere without changing the digits |
| Base64.BytesOfDigits | node_v0.6.19/node/src/node_buffer.cc:306-375 | the bytes of the digits of bytes are these bytes |
| Base64.AlphabetIs | node_v0.6.19/node/src/node_buffer.cc:282-284 | the alphabet of section 4 of RFC 4648 |
| Base64.OnlyDigits | node_v0.6.19/node/src/node_buffer.cc:282-303 | a character stands for a digit if and only if it is one of the alphabet, and for that one |
| Base64.SextetsMore | node_v0.6.19/node/src/node_buffer.cc:609-635 | the digits of a string up to its end are those of its characters that are digits, in order |
| Base64.EncodedAt | node_v0.6.19/node/src/node_buffer.cc:306-375 | characters 4k to 4k + 3 of an encoding are the four digits of the number that bytes 3k to 3k + 2 are, a pad for each byte there is not |
| Base64.EncodedLengthIs | node_v0.6.19/node/src/node_buffer.cc:306-313 | four characters for each three bytes begun |
| Base64.BytesAt | node_v0.6.19/node/src/node_buffer.cc:609-635 | four digits anywhere are the number that their three bytes are |
| Base64.BytesEnd | node_v0.6.19/node/src/node_buffer.cc:609-635 | two or three digits at the end are one or two bytes, and one is none |
| Base64.WritesBack | node_v0.6.19/node/src/node_buffer.cc:584-644 | writing an encoding of b, other characters put in anywhere, gives |b| and leaves b in the buffer wherever it fits |
| Base64.Base64Slice | node_v0.6.19/node/src/node_buffer.cc:306-375 | the encoder writes the encoding into a buffer of exactly its size |
| Base64.DecodeGroup | node_v0.6.19/node/src/node_buffer.cc:612-635 | one turn of the loop writes the group's bytes, as far as string and room go, and no others |
| Base64.Base64Write | node_v0.6.19/node/src/node_buffer.cc:584-644 | as many of the decoded bytes as fit and are allowed are written and counted, all of them if they do; no other byte changes; behind the buffer it is an error unless there is nothing to write |
| Base64.SizeIs | node_v0.6.19/node/src/node_buffer.cc:74-96 | the size estimate of every string in closed form: three for four characters, one, one or two for the rest, less the pads; nothing for one character, and wrapped around for two pads |
| Base64.SizeIsExact | node_v0.6.19/node/src/node_buffer.cc:74-96 | the size estimate is exact on padded encodings |
| Base64.SizeIsExactUnpadded | node_v0.6.19/node/src/node_buffer.cc:74-96 | and on encodings without their padding |
| Base64.SizeWraps | node_v0.6.19/node/src/node_buffer.cc:90-95 | the estimate exceeds the length of the string, by wrapping around, exactly for the string of two pads |
| Utf8Decoder.IncompleteIs | node_v0.6.19/node/lib/string_decoder.js:68-92 | the search finds exactly the bytes of an incomplete last character |
| Utf8Decoder.StringDecoder.Write | node_v0.6.19/node/lib/string_decoder.js:32-112 | bytes handed on and bytes held are the bytes received, less is held than a character of at most four has, and on valid input every piece is whole characters |
| Utf8Decoder.ChunksDoNotMatter | node_v0.6.19/node/lib/string_decoder.js:32-112 | a decoder that has received whole characters holds nothing, and what it handed on has these characters, however they were cut (section 3 of RFC 3629) |
| Utf8Decoder.Utf8Bits | node_v0.6.19/node/lib/string_decoder.js:68-92 | the encoding of a code point holds its bits, six in each byte after the first, as in the table of section 3 of RFC 3629 |
| Utf8Decoder.TextArrives | node_v0.6.19/node/lib/string_decoder.js:32-112 | a text in UTF-8, in whatever chunks it comes, is handed on code point by code point, and nothing is held back |
| TagMerge.Highlighter.Output | node_v0.6.19/node/doc/sh_main.js:93-130 | the tags so far give every character the style it was output with |
| TagMerge.Highlighter.EndLine | node_v0.6.19/node/doc/sh_main.js:239-247 | at the end of a line the tags are highlights alone, sorted, start and end alternating |
| TagMerge.MergeTags | node_v0.6.19/node/doc/sh_main.js:342-393 | the merge that splits highlights ends, and is the function the next rows are about |
| TagMerge.MergeSorted | node_v0.6.19/node/doc/sh_main.js:342-393 | the merged list is sorted by position |
| TagMerge.MergePaired | node_v0.6.19/node/doc/sh_main.js:342-393 | in it every highlight start is directly followed by its end |
| TagMerge.MergeKeeps | node_v0.6.19/node/doc/sh_main.js:342-393 | without its highlights it is the original list |
| TagMerge.MergePath | node_v0.6.19/node/doc/sh_main.js:342-393 | every position keeps its original ancestors and its style, the highlight innermost |
| TagMerge.InsertTags | node_v0.6.19/node/doc/sh_main.js:401-444 | the text is kept, and every character is in the nodes the tags up to it leave open |
| TagMerge.PathByMatching | node_v0.6.19/node/doc/sh_main.js:401-444 | the nodes a position is in are, from the outermost, those whose start tag is not after it and whose matching end tag is |
| TagMerge.Highlight | node_v0.6.19/node/doc/sh_main.js:453-464 | end to end: every character keeps its nodes and gets one more, innermost, just when it has a style |
| Framing.QuotedScanned | globalsd/lib/client.js:80-107 | what is in a string, brackets and escaped quotation marks included, does not open or close an object (section 7 of RFC 8259) |
| Framing.PrefixIsNoObject | globalsd/lib/client.js:80-107 | a beginning of an object's text does not parse, its brackets being open |
| Framing.FeedValid | globalsd/lib/client.js:71-109 | whatever the chunks, the objects handled are those whose text has arrived, and what is left begins the next |
| Framing.LinesIs | globalsd/lib/client.js:119-132 | every object on the wire is its text and a line feed |
| DriverProtocol.ReplyCodecSound | globalsd/lib/client.js:42-45 | headers and results are told apart if and only if no result reads as a header |
| DriverProtocol.RoutedWritten | globalsd/lib/client.js:82-102 | what the server writes has every callback called with its own request's results, in order, in both result modes, also when there are none |
| DriverProtocol.NextInv | globalsd/index.js:158-194 | sending, and any chunk either way, keeps both directions in order and the replies those to the requests read |
| DriverProtocol.RunCalls | globalsd/lib/client.js:71-132 | in every run the callbacks called are the first of those due, each with its own results, and all once everything arrived |
| DriverProtocol.BatchRun | globalsd/index.js:295-309 | in batch mode the k-th callback called is request k's, with the whole array the operation returned, or with the one result |
| DriverProtocol.BatchAll | globalsd/lib/client.js:71-132 | and all are called, once each, when everything has arrived |
| DriverProtocol.StreamRun | globalsd/index.js:295-309 | in stream mode it is called once for each element of the array, in order, once with nothing for an empty one, and once for a result that is no array |
| DriverPeers.Client.Send | globalsd/lib/client.js:119-132 | one more line under the next id |
| DriverPeers.Client.OnObject | globalsd/lib/client.js:82-102 | the client's counters, batch and calls follow the specification |
| DriverPeers.Client.OnData | globalsd/lib/client.js:71-109 | a chunk is handled as in the specification |
| DriverPeers.Server.OnRequest | globalsd/index.js:247-315 | a header with the id and the number of results, and every result, go out |
| DriverPeers.Server.OnData | globalsd/index.js:158-194 | a chunk is handled as in the specification |
| CollectionIndex.Execute | query.js:81-141 | the nested loops select the objects a query selects; a clause on a property an object lacks does not count |
| CollectionContents.Comparisons | query.js:12-43 | an object is found by a clause if and only if it is a row, has the property, and its value is ==, !=, <, <=, > or >= the one given, operator by operator |
| CollectionContents.Joiners | query.js:81-141 | by several if and only if one, or with $and all, of those whose property it has selects it alone |
| CollectionContents.FilterParts | query.js:81-141 | rows are selected one by one, in their order |
| CollectionContents.ScanRows | index.js:428-478 | a scan goes through every object with a positive id, once, by increasing id |
| CollectionIndex.FindIsScan | index.js:479-523 | an equality find through the index returns the sequence a filtered scan does if the index has every object with the value, or none |
| CollectionIndex.FindExplicit | index.js:479-523 | a query with an operator, even that of equality, finds what a scan does, as the source looks the expression itself up and falls back to a scan |
| CollectionIndex.FindIsScanOnlyIf | index.js:479-523 | and only if |
| CollectionIndex.UnbuiltIndexHides | index.js:479-523 | two objects added, an index ensured and not built, the second saved again: find and scan differ |
| CollectionContents.SaveStores | index.js:584-640 | after save the object of that id has every property with the value passed, its others are kept or gone as the store merges or replaces, and other ids and old entries are unchanged |
| CollectionContents.AddStores | index.js:527-582 | add, and save of an object without an id, does that under the next id |
| CollectionContents.RemoveTakesOut | index.js:642-696 | the id is gone with the entries passed, others are unchanged; without an id it is an error, without an object everything is gone but the index |
| CollectionContents.EnsureIndexAdds | index.js:810-848 | the property is indexed, and nothing else changes |
| CollectionContents.ReIndexEnters | index.js:850-872 | the index gets the entries of the objects stored, and no others |
| CollectionIndex.SaveKeeps | index.js:584-640 | save keeps the index complete, whether the store merges or replaces |
| CollectionIndex.RemoveKeeps | index.js:642-696 | remove keeps it complete, though entries of other values stay behind |
| CollectionIndex.ReIndexMakes | index.js:850-872 | reIndex makes the index complete, whatever was in it |
| CollectionIndex.FindAfterRun | index.js:428-523 | after ensureIndex, reIndex and any run of add, save and remove, a find on the indexed property, with any expression, is the filtered scan |
| Collections.Collection.UpdateIndex | index.js:199-243 | the entries of the object's indexed properties are set or killed, and no others |
| Collections.Collection.Add | index.js:527-582 | the collection follows the specification |
| Collections.Collection.Save | index.js:584-640 | the collection follows the specification; an empty object is refused |
| Collections.Collection.Remove | index.js:642-696 | the collection follows the specification; an object without an id is an error |
| Collections.Collection.EnsureIndex | index.js:810-848 | a property is indexed at most once |
| Collections.Collection.Find | index.js:428-523 | the loops over order return what the specification finds |
| Collections.Collection.ReIndex | index.js:850-872 | the index is complete afterwards |

## Left out

- Punycode.Decode: characters that `basicToDigit` takes for a negative digit are an error here, because the source leaves them unclassified.
- Punycode: `toUnicode`, `toASCII` and the splitting of domain names, which only map the codec over labels.
- OutgoingSpec.Write: strings of different encodings in one message; text is its bytes under the one encoding in use, so merging strings does not re-encode.
- OutgoingSpec.BufferedPends: a Buffer passed with an encoding, which a later string with that encoding would be merged with as text; a Buffer carries no encoding here.
- HttpConnection.ServerResponse.WriteRaw: that the socket could become unwritable between two writes of one call; it does so only when a response closes the connection.
- HttpConnection: rendering of headers (a response carries the header it will render), `Expect: 100-continue`, upgrades, aborts and socket errors, the drain event, and the client's requests.
- HttpConnection.Connection.OnIncoming: a header is never empty, as it begins with a status line.
- PipelineSpec.Delivered: for trailers whose fields are one line each, because the handler chooses them; where the framing itself fails is `PipelineSpec.CountedReceived`.
- HandlerCalls.DeliveredCalls: for trailers without carriage returns, and framings that the header and the handler make true, for the same reason.
- AgentPool.RunInv: for sockets that become free while in use and are removed once; the number of sockets allowed is at least one.
- Timers.Module.OnTimeout: callbacks that throw; and finitely many callbacks do something, as for timeouts below 2 a list whose items re-arm themselves may never drain.
- IdleTimers.DrainFires: timeouts of 0 and 1 milliseconds, for which an item started during the drain may fire in it as well (`IdleTimers.DrainFiresDue`, `IdleTimers.RearmedFires`).
- IdleTimers.RunInv: a clock that is set back (`Wait` only adds to it), after which a list need not be in the order of its items' starts, and an event loop whose time runs ahead of it, whose watchers may go off late.
- IdleTimers.EveryItemIsWatched: the same, as it is about the same runs.
- Timers: the DOM-style functions on top (`setTimeout` and the others); items' start and timeout are tables beside the nodes, and `insert` does not write an item's timeout back to it.
- Ieee754.WrittenNearest: estimates of the logarithm that are more than one away from its floor.
- PosixPath.Relative: a working directory that is not absolute, which a process never has.
- PosixPath: `join`, `dirname`, `basename` and `extname`, and the Windows half.
- Base64.First: the parts of each bitwise or are added, having no bit in common.
- Utf8Decoder: overlong forms, surrogates and values beyond U+10FFFF are not told from other characters, and the text of a piece that is not valid is not modelled.
- TagMerge.InsertTags: elements without text, and positions beyond the text.
- TagMerge: the matching of patterns, which decides the styles, and the links made for the style `sh_url`.
- DriverProtocol.RunCalls: results that have the property `~*-globalsdb-*~`, which the client takes for a header (`DriverProtocol.ReplyCodecSound`).
- Framing: text is ASCII, so that a chunk does not cut a character; JSON is any printer and parser of one-line objects whose brackets are balanced.
- DriverPeers.Server.OnRequest: invalid requests and unknown operations (`400`), results that are not objects, several connections, and callbacks or operations that throw.
- Collections.Collection.EnsureIndex: the collation an index is ordered by, and the entry stored for the index itself.
- Collections: asynchronous calls, indexes of several properties, values that are not numbers, query statistics, `ensureSQL`, remote connections.
- The rest of the repository: bindings, streams, DNS, TLS, zlib, the shell and the console page, whose difficulty is in foreign code or in input and output.
