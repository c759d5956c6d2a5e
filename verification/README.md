# gootp in Dafny

A model of the hardest parts of gootp, an actor kernel in the manner of Erlang/OTP with its
network and codec layers, and proofs about it. `dafny verify dfyconfig.toml` checks all of it.

## What is modelled

- **Timers** (`TimerModel`, `TimerProofs`, `TimerLists`). Five doubly linked lists are looked
  at every tick, second, ten seconds, minute and hour, and timers come down from list to list.
  The model says what a tick does to five sequences; the class does it with linked nodes. Over
  every run nothing fires early and nothing steady fires late, no timer is lost or doubled, and
  every deadline of a live process is met. An interval below a tick is exactly what breaks it.
- **Gate framing** (`Bpool`, `Framing`, `GateConn`). A growing buffer is cut into
  length-prefixed frames as bytes arrive. However the stream is cut, the frames are the same.
- **The pb codec** (`PbModel`, `PbProofs`, `PbWire`, `PbCodec`, `PbMessages`, `PbFailures`, `PbSchema`). How a schema
  is learnt by walking struct types, how values of recursive types are encoded and decoded, and
  exactly which values survive the round trip, and which types can make it panic; and protos sent over a gate connection, end to end.
- **The HTTP/1.1 request parser** (`HttpModel`, `HttpParser`, `HttpRead`, `HttpRoundTrip`,
  `HttpMessages`, `HttpFresh`, `HttpNumbers`, `HttpServed`, `HttpLengths`, `HttpOnly`,
  `HttpExactly`). The state machine one byte at a time; the loop with its cache, its index and its
  jumps proved to come to the same; independence of how the stream is cut; printed pipelines of
  plain and chunked messages read back as they were; and the converse, that of any stream nothing
  but printed messages is served, so that the language of the parser is known exactly.
- **WebSocket connections** (`WsModel`, `WsProofs`, `WsMessages`, `WsControl`, `WsConn`,
  `TruncWriter`). Frames, masks, fragments, control frames, and the writer that cuts a deflated tail.
- **A\* search** (`AstarLine`, `AstarModel`, `AstarPath`, `AstarHunt`, `AstarSearch`). Bresenham's
  line, the search over a cache of nodes with its open list proved to do what a search over cells
  alone does, and the path read back in place.
- **Smaller cores**: drawing without replacement (`Rand`, `RandWeights`), the ring buffer
  (`RingBuffer`, `RingRuns`), the two stages of a mailbox (`Mailbox`), the worker pool (`Manager`).

`Basics`, `Arith` and `Bytes` hold what the others share.

## Where the code does not do what it seems meant to

Each of these is proved, with the exact condition under which the code does meet its purpose.

- A periodic timer with an interval shorter than a tick falls behind without bound
  (`TimerProofs.InTimeExactlyWhenSteady`).
- pb reads one byte of a uint16 twice, cannot decode floats inside slices and maps, and loses
  pointers to structs without fields (`PbProofs.RoundTripExactly`). Decoding panics on named
  scalar types and on fields that are not exported, which its schema check lets pass
  (`PbFailures.DecodeFailsExactly`, `PbSchema.ParsedLostExactly`, `PbSchema.NamedOrHidden`).
  It also lets pass types on which encoding panics (`PbSchema.ParsedFailsExactly`,
  `PbFailures.EncodeFailsExactly`). Lengths over 16 bits are cut (`PbProofs.TextExactly`,
  `PbFailures.SliceExactly`, `PbFailures.MapExactly`).
- A new HTTP parser loses a first chunk that is no more than the start of a method
  (`HttpFresh.PipelineOnNewParser`).
- Once an HTTP connection has carried a chunked message, no plain one is served on it
  (`HttpMessages.ServedExactlyUnlessMarked`).
- A trailer value is cut at its first blank (`HttpMessages.TrailerValueExactly`).
- A trailer field without a value does not count as bringing its name
  (`HttpMessages.TrailersAreRead`, `HttpExactly.ServedExactly`).
- A struct that is registered twice with two ids leaves the first id standing for a struct with
  the second (`PbSchema.ParsedIsValidExactly`).
- A WebSocket connection takes fragments of no message, control frames that are too long and
  control frames of no known kind (`WsControl.AcceptedExactly`, `WsControl.StrayIsHandedOver`).
- An empty WebSocket message panics if it is a text or compressed (`WsMessages.DeliveredExactly`),
  and so does a frame length near 2^63 (`WsProofs.CrashesExactly`, `WsProofs.TenBytesCrash`).
- A ring buffer that has held its maximum and run empty keeps a capacity that its cache no
  longer has, and panics after as many puts (`RingRuns.NewBreaksExactly`). So do
  mailboxes that have queued 32 messages (`Mailbox.CrashesExactly`), and worker pools of 128, 256,
  512 workers and so on can lose workers (`Manager.WorkersStayExactly`).
- The HTTP client asks for a queue of 10 to 100 places and gets none
  (`RingBuffer.NewSingleRingBuffer`, `RingBuffer.TenIsNoPower`).
- A message that an actor casts to itself can overtake an earlier one
  (`Mailbox.OwnOrderExactly`, `Mailbox.OwnMessagesSwapped`).
- Compressed messages of more than one fragment are written with a bit that only the first may
  have (`WsMessages.BitsAsDemandedExactly`).
- The writer that holds back the deflate tail claims fewer bytes than it was given
  (`TruncWriter.Writer.Write`).
- Weighted drawing favours the first candidate by one (`RandWeights.ChanceOf`), and with
  negative weights it can panic even when they add up to more than nought
  (`RandWeights.CrashExactly`, `RandWeights.PositiveTotalCrashes`).

## Model

| member | source | states |
|---|---|---|
| TimerProofs.LoopKeepsSchedule | kernel/timer.go:116-133 | One tick keeps the schedule: every entry of every list may still wait for the next look at its list, through cascades, periodic re-insertion and the hourly reset of the counter |
| TimerProofs.HandleKeepsSchedule | kernel/timer.go:95-103 | Handling a timer between two ticks keeps the schedule |
| TimerProofs.RunIsPunctual | kernel/timer.go:116-184 | In every run nothing fires before its deadline, and nothing with an interval of at least a tick later than one tick after it, counted from when its message was handled |
| TimerProofs.RunConserves | kernel/timer.go:135-193 | In every run and for every entry: handled plus renewed is pending plus fired plus dropped |
| TimerProofs.MetOncePerSetting | kernel/timer.go:148-170 | A deadline that has passed was met, or dropped with a dead process, exactly as often as it was set |
| TimerProofs.AliveIsNotDropped | kernel/timer.go:153-166 | A timer of a process that is alive at every tick is never dropped |
| TimerProofs.EveryDeadlineIsMet | kernel/timer.go:148-170 | A handled timer of a process that stays alive meets every deadline that has passed; a periodic one d, d + inv, d + 2 inv and so on |
| TimerProofs.CheckFires | kernel/timer.go:148-170 | What a walk of t0 casts was in t0, was due, and was to a live process |
| TimerProofs.FallsBehind | kernel/timer.go:155-163 | With an interval under a tick a periodic timer falls behind by the difference at every tick |
| TimerProofs.InTimeExactlyWhenSteady | kernel/timer.go:148-170 | Periodic timers of an interval are in time in every run if and only if the interval is at least a tick |
| TimerProofs.PeriodOf | kernel/env.go:23-28 | For a tick length that divides a second, every sweep period is a whole number of ticks and the hour a whole number of each |
| TimerLists.InsertFirst | kernel/timer.go:186-193 | The new node becomes the head, and the five lists stay linked both ways, disjoint, and of the nodes they should have |
| TimerLists.Remove | kernel/timer.go:211-229 | Exactly the one node leaves a doubly linked list, wherever it stands, and the rest stay linked in order |
| TimerLists.ATimer.constructor | kernel/timer.go:77-94 | Five empty lists, and counters that are the sweep periods |
| TimerLists.ATimer.InsertTimer | kernel/timer.go:172-184 | The node goes to the front of the list its interval belongs to, even while the head of another list is in the hands of the caller |
| TimerLists.ATimer.RemoveTimer | kernel/timer.go:211-229 | A node leaves its list among the five, and nothing else moves |
| TimerLists.ATimer.ActTimer | kernel/timer.go:135-146 | Sweeping a list moves exactly the timers that are near enough down to where they belong, in place |
| TimerLists.ATimer.LoopTimerCheck | kernel/timer.go:148-170 | The walk casts exactly the due timers of live processes, in order, renews the periodic ones and unlinks the rest |
| TimerLists.ATimer.LoopTimer | kernel/timer.go:116-133 | The linked lists after a tick are those of the model tick, and the casts are those of the model |
| TimerLists.ATimer.HandleTimer | kernel/timer.go:95-103 | A new timer is put into the list its interval belongs to |
| Bpool.SmallestClass | bpool/bpool.go:59-65 | For every size below 64K getIndex names a pool, its buffers hold the size, and the next smaller ones would not |
| Bpool.Capacity | bpool/bpool.go:39-49 | The capacity New gives holds the size and is less than twice as much, but for the smallest class |
| Bpool.Buff.constructor | bpool/bpool.go:39-49 | New gives an empty buffer with room for the size |
| Bpool.Buff.From | bpool/bpool.go:51-57 | NewBuf gives a buffer of exactly these bytes |
| Bpool.Buff.Append | bpool/bpool.go:104-114 | The bytes follow those there were; the same buffer while they fit, else a new one and the old one untouched |
| Framing.HeadIsBigEndian | gate/reader.go:50-58 | ReadHead reads the first two or four bytes as a big-endian number |
| Framing.FramesJoin | gate/nb_conn.go:212-242 | The frames and the rest of a stream, put together again, are the stream |
| Framing.FramesSplit | gate/nb_conn.go:212-242 | Framing a stream in two pieces, the second behind the rest of the first, gives the frames of the whole |
| Framing.ChunksDoNotMatter | gate/nb_conn.go:185-242 | However a stream is cut, its frames and its unfinished rest are the same |
| Framing.OnePacket | gate/nb_conn.go:113-128 | What Send writes comes out as the one frame it was if and only if the length fits the head |
| Framing.SentIsReceived | gate/nb_conn.go:113-128 | Messages that fit, sent one after another, come out as exactly those frames with nothing left |
| Framing.SentInChunksIsReceived | gate/nb_conn.go:113-242 | The same, however the stream is cut |
| GateConn.ConnNbio.Measure | gate/nb_conn.go:214-220 | The frame size is learnt as soon as the head is there, and the buffer then has room for the frame |
| GateConn.ConnNbio.CastFrame | gate/nb_conn.go:222-236 | One whole frame is cast, and what follows it stays as the beginning of the next |
| GateConn.ConnNbio.ReadBuf | gate/nb_conn.go:212-242 | All whole frames are cast in order, the rest stays, and the buffer has room for at least one more byte |
| GateConn.ConnNbio.OnRead | gate/nb_conn.go:185-210 | Reading goes on until the first read that would block, fails, or is shorter than the room it had without having been interrupted, and no further; what has been cast and what is pending are then the frames and the rest of all that was ever read; a failing read closes the connection; and if no read is short before the stream ends, all of the stream has been read |
| GateConn.ReadsStop | gate/nb_conn.go:190-209 | The reads that OnRead makes: each but the last was interrupted or filled its room, and the last one, if the script lasts, did neither |
| GateConn.AllTaken | gate/nb_conn.go:185-210 | Reads that are never short before the stream ends take all of it |
| GateConn.AllDelivered | gate/nb_conn.go:185-242 | Messages that fit their head, once all is read, have been cast one by one and nothing is pending |
| GateConn.Send | gate/nb_conn.go:113-128 | The bytes on the wire are the length in the head and the message |
| PbSchema.MakeDef | gate/pb/pb.go:54-163 | From one struct the walk registers structs that can be reached and no others, all of them complete; it panics only if one that is not allowed can be reached |
| PbSchema.Visit | gate/pb/pb.go:165-186 | checkStruct over what one field mentions |
| PbSchema.Parse | gate/pb/pb.go:30-65 | Parsing succeeds if and only if every struct that can be reached is allowed, also when structs mention each other; all of them are then registered, each under the id of the last request that names it and the others under none, and each id stands for the struct of the request it was given in |
| PbSchema.ParsedIsValidExactly | gate/pb/pb.go:54-65 | What Parse leaves is a coder in which every id stands for a struct that has this id if and only if every request with an id is the last for its struct |
| PbSchema.ParsedFailsExactly | gate/pb/pb.go:54-186 | After Parse every value of every field can be encoded if and only if every field is codable: makeDef lets pass slices and maps of types that the coder has no functions for, and maps whose values are pointers or maps |
| PbSchema.ParsedLostExactly | gate/pb/pb.go:54-186 | After Parse some value of some registered struct can be lost, so that decoding it panics, if and only if one of them has a field that is not exported, a field of a named scalar type, or floats or named scalars inside slices or maps: makeDef looks at the kind of a type and never at its name |
| PbSchema.StrayElement | gate/pb/pb.go:66-158 | Such a struct, which Parse accepts: one field, a slice of a type without functions; a slice with one element cannot be encoded |
| PbSchema.NamedOrHidden | gate/pb/decoder.go:180-194 | Such structs, which Parse accepts: one field of a named int32, or one that is not exported; every value is encoded, and decoding panics on any bytes |
| PbSchema.ParsedRoundTrip | gate/pb/pb.go:30-186 | After Parse with codable fields, every value of a field whose length prefixes fit is encoded, and decoding at any offset gives back what Seen says, or panics where Seen says so |
| PbFailures.EncodeFailsExactly | gate/pb/encoder.go:60-276 | In a schema whose kinds all have values, encoding a value of some field can panic if and only if some field is not codable; for one that is not, a value that makes it panic is constructed |
| PbFailures.DecodeFailsExactly | gate/pb/decoder.go:31-231 | Decoding the encoding of a conforming value panics if and only if somewhere in it a slice or a map holds a float, something is of a named scalar type, or a struct that is there has a field that is not exported |
| PbFailures.LostExactly | gate/pb/decoder.go:31-231 | In a schema whose kinds all have values, no value of any struct is lost in this way if and only if all fields are exported and storable; for one that is not, a value that is lost is constructed |
| PbFailures.SliceExactly | gate/pb/encoder.go:194-218 | A slice of conforming elements comes back, with the decoder behind it, if and only if its encoded length fits 16 bits and it is intact |
| PbFailures.MapExactly | gate/pb/encoder.go:220-250 | The same for maps |
| PbProofs.DecodeOfEncode | gate/pb/decoder.go:31-231 | At any offset and before any suffix, decoding the encoding of a conforming value of any recursive type yields exactly what Seen says and stops exactly behind it, in any order of map entries |
| PbProofs.SeenExactly | gate/pb/decoder.go:31-231 | A conforming value is seen as itself if and only if it is intact |
| PbProofs.RoundTripExactly | gate/pb/encoder.go:60-268 | The round trip gives back the value if and only if every uint16 is a multiple of 257, no pointer in a field is to a struct without fields, no slice holds nil pointers or pointers to such structs, no slice or map holds floats, nothing is of a named scalar type, and all fields of the structs that are there are exported |
| PbProofs.TextExactly | gate/pb/encoder.go:178-192 | A string or byte array comes back if and only if its length fits 16 bits |
| PbWire.WrittenOnce | gate/pb/encoder.go:119-192 | What is on the wire for a scalar: a bool as 1 or 0, a number most significant byte first in its width, a text behind the two bytes of its length, a pid behind a 1 as its id in eight bytes and its node, or 0 for none; and in no other way |
| PbWire.SpeltExactly | gate/pb/encoder.go:60-268 | The encoding of every conforming value, of any recursive type, is what a grammar of the bytes says that is stated without the encoder, and nothing else is |
| PbWire.ProtoIsSpelt | gate/pb/encoder.go:41-58 | A proto is its id in two bytes and its fields as that grammar has them |
| PbCodec.EncodeValue | gate/pb/encoder.go:60-276 | Panics exactly for a value that cannot be encoded, and else appends exactly its encoding |
| PbCodec.EncodeSlice | gate/pb/encoder.go:194-218 | Appends the elements, nothing for nil ones, and then writes their length over the two bytes kept for it; panics if an element does |
| PbCodec.EncodeMap | gate/pb/encoder.go:220-250 | The same for the entries in the order they are enumerated; panics if an entry does, or if a map with entries is itself the value of a map |
| PbCodec.EncodeStructCheck | gate/pb/encoder.go:70-78 | The presence byte is set only if something was written behind it; panics if a field does |
| PbCodec.EncodeDef | gate/pb/encoder.go:80-90 | Appends the fields in order, or panics with the first that does |
| PbCodec.DecodeValue | gate/pb/decoder.go:31-178 | Decodes as the decoding function says, panics included |
| PbCodec.DecodeSlice | gate/pb/decoder.go:103-118 | Decodes elements up to the end its prefix gives |
| PbCodec.DecodeMap | gate/pb/decoder.go:120-145 | Decodes entries up to the end its prefix gives, a later one replacing an earlier one of the same key |
| PbCodec.DecodeStructDef | gate/pb/decoder.go:180-194 | Decodes the fields in order; panics on a struct with fields that are not exported |
| PbMessages.WriteSizeHead | gate/pb/encoder.go:283-293 | Writes the length over the head, big-endian, in the width of the head |
| PbMessages.Encode | gate/pb/encoder.go:41-58 | Panics if and only if a field cannot be encoded; else, with a head, the result is the packet that the gate frames, and without one the id and the fields |
| PbMessages.Decode | gate/pb/decoder.go:12-20 | Whatever a registered proto was encoded to is decoded to its id and what its fields are seen as; too few bytes or an id that nobody registered panic |
| PbMessages.ProtoRoundTrip | gate/pb/encoder.go:41-58 | A proto comes back unchanged if and only if all its fields are exported and intact |
| PbMessages.ProtosArrive | gate/nb_conn.go:131-242 | Protos encoded with a four-byte head, sent one after another and delivered in any chunks, arrive as one frame each, in order, and decode to what they are seen as |
| HttpModel.StepLine | httpd/parser.go:140-202 | A byte of the request line keeps the parser ready: from statePathBefore on there is a request to fill in |
| HttpModel.StepHead | httpd/parser.go:281-420 | A byte of the header keeps it so, and a body state is entered only with a positive length |
| HttpModel.StepChunk | httpd/parser.go:432-510 | A byte between chunks keeps it so, and chunk data is entered only with a positive size |
| HttpModel.StepTrailer | httpd/parser.go:511-612 | A byte of the trailer keeps it so |
| HttpModel.EndOfHeader | httpd/parser.go:300-318 | The end of the header keeps it so, whatever the three header checks find |
| HttpModel.ParsingIsSound | httpd/parser.go:137-612 | Every byte in every state keeps the invariants of the loop: a request where one is needed, and less of a body held than it takes |
| HttpParser.SplitDoesNotMatter | httpd/parser.go:112-630 | From any state with a cache that is absent or not empty, Read(a) and then Read(b) give the error, the requests and the state of Read(a ++ b), unless a read is refused as too long |
| HttpParser.ChunksDoNotMatter | httpd/parser.go:112-630 | Any number of reads, none refused as too long: the error, the requests, the state and the cache are those of the whole stream fed byte by byte, however long it is and however it is cut |
| HttpParser.OneReadIsEnough | httpd/parser.go:112-630 | They are those of a single read of it, if that is not refused either |
| HttpParser.SmallIsNotRefused | httpd/parser.go:127-130 | No read of a stream that fits the limit as a whole is refused |
| HttpParser.TooLongExactly | httpd/parser.go:116-130 | A read is refused as too long if and only if something is held and that and the chunk are over the limit |
| HttpParser.HeldIsBounded | httpd/parser.go:116-130 | What is held between reads is never more than the limit or the longest chunk |
| HttpParser.ReadKeepsValid | httpd/parser.go:614-630 | After Read, from a cache that is absent or not empty, the cache is the end of the bytes given that has not been consumed, and the parser waits as before a call |
| HttpRead.Parser.constructor | httpd/parser.go:60-73 | A new parser waits for a method, with a cache that is there but empty |
| HttpRead.Parser.Close | httpd/parser.go:84-95 | The parser is closed and its cache given up |
| HttpRead.Parser.Scan | httpd/parser.go:137-612 | The loop, with its jumps over bodies, comes to what feeding the bytes one by one comes to; start stays behind the index, and it terminates |
| HttpRead.Parser.Read | httpd/parser.go:112-630 | Read comes to what the model of Read says: error, state, cache and requests handed over |
| HttpRoundTrip.LineIsRead | httpd/parser.go:140-287 | A printed request line is read back as method, URI and version |
| HttpRoundTrip.FieldsAreRead | httpd/parser.go:288-403 | Printed header fields are read back, each under its canonical name, values of the same name in order |
| HttpMessages.PartsAreRead | httpd/parser.go:432-510 | Chunk after chunk, with sizes in any hexadecimal form and any extensions, the body grows by exactly their data (section 4.1 of RFC 7230) |
| HttpMessages.TrailersAreRead | httpd/parser.go:511-596 | Field after field the request gets its trailer; one with a value is taken while an announced name is awaited, and one without does not count as bringing its name |
| HttpMessages.TrailerValueExactly | httpd/parser.go:518-596 | Feeding a trailer field to the parser gives the request exactly its value if and only if there is no blank in it: it is cut at the first one |
| HttpMessages.MessageIsServed | httpd/parser.go:140-612 | A printed well-formed message, plain or chunked, with or without a trailer, with all the blanks and junk that the parser passes over, is served as exactly the request that was printed, and the parser is idle again |
| HttpMessages.ServedExactlyUnlessMarked | httpd/parser.go:730-736 | A well-formed message is served when it is complete if and only if it is chunked or no message before it on the connection was: the chunked mark is never taken back |
| HttpMessages.PlainAfterChunked | httpd/parser.go:404-420 | A plain message after a chunked one is refused for its length, or leaves the parser waiting for chunks |
| HttpMessages.PipelineIsServed | httpd/parser.go:112-630 | Messages printed one after another, each well formed for the parser as the ones before leave it, are served as exactly those requests in order (section 6.3.2 of RFC 7230) |
| HttpMessages.PipelineOnUsedParser | httpd/parser.go:112-630 | The same for a parser that has served messages before and given up its cache, however the network cuts the stream, as long as no read is refused as too long |
| HttpFresh.FirstReadKeepsExactly | httpd/parser.go:614-621 | The first read of a parser keeps what it has not consumed if and only if the chunk is more than the start of a method |
| HttpFresh.PipelineOnNewParser | httpd/parser.go:60-73 | Any pipeline of well-formed messages that reaches a new parser in any number of chunks, none refused for its size, is served if and only if the first chunk that is not empty reaches behind the first method; otherwise it is refused as an invalid method, however many chunks that takes, and nothing is handed over |
| HttpFresh.PipelineInChunks | httpd/parser.go:112-630 | Over all parsers between two messages that hold nothing, new or not, all pipelines and all chunkings of which no read is refused: served, with the parser waiting for another message, if and only if the parser is not new or its first read reaches behind the first method |
| HttpFresh.FirstMessageInTwo | httpd/parser.go:60-73 | So one message in two chunks is served if and only if the cut is behind the method |
| HttpNumbers.NumeralParses | httpd/parser.go:97-109 | A number below 2^62, printed in base 10 or 16, is parsed as itself |
| HttpNumbers.NumeralIsGoodSize | httpd/parser.go:432-465 | A number printed in hexadecimal is a chunk size that PartsAreRead takes for that number |
| HttpNumbers.LengthIsRead | httpd/parser.go:651-680 | A decimal Content-Length, with any blanks behind it, is read as its number |
| HttpNumbers.NamesAnnounce | httpd/parser.go:682-727 | A Trailer header that lists the names of fields, separated by commas, with any white space around each, announces exactly those, and is refused if and only if one of them is a key that no trailer may have (section 4.4 of RFC 7230) |
| HttpServed.HeaderHolds | httpd/parser.go:773-780 | The header of a request holds exactly the values of its fields, those of one name in order |
| HttpServed.NoLengthExactly | httpd/parser.go:651-680 | There is taken to be no length, without an error, if and only if there is no Content-Length or its first value is empty |
| HttpServed.PlainIsServed | httpd/parser.go:140-431 | A request without a transfer encoding, and with no Content-Length and no body or with the number of its bytes, is served as written |
| HttpServed.BareGetIsServed | httpd/parser.go:140-420 | The bytes of a smallest GET, with nothing behind the colon of its one field, are served, with length -1 and no body |
| HttpServed.ChunkedIsServed | httpd/parser.go:140-612 | A request whose Transfer-Encoding says chunked, in any case and with any white space around it, is served as written whatever Content-Length it has |
| HttpLengths.ParsedExactly | httpd/parser.go:97-109 | A text in base 10 or 16 is parsed as a number if and only if it is that number, with a sign or noughts before it or not, and below 2^62 |
| HttpLengths.LengthExactly | httpd/parser.go:651-680 | A Content-Length is taken for n if and only if it is such a text for n, which is not negative, with blanks behind it or not |
| HttpLengths.SizeExactly | httpd/parser.go:97-109 | A chunk size is good for n if and only if it is n in hexadecimal, with noughts before it or not, below 2^62 |
| HttpExactly.ServedExactly | httpd/parser.go:137-612 | Over all streams: an idle parser, marked by a chunked message or not, hands over a request if and only if the stream begins with a printed message that is well formed |
| HttpExactly.FirstIsServed | httpd/parser.go:137-612 | It is then the request of that message, and the rest is served as by a parser that is idle again |
| HttpExactly.PrintedOnce | httpd/parser.go:137-612 | No printed message is the beginning of another, and none is two messages that are served differently |
| HttpExactly.StreamExactly | httpd/parser.go:137-612 | Over all streams: what an idle parser hands over are the messages the stream begins with, up to where none begins, and nothing else |
| HttpExactly.ReadsExactly | httpd/parser.go:112-630 | The same over all sequences of reads of a parser that has given up its cache, none of them refused as too long |
| WsProofs.MaskedTwice | httpd/websocket/conn.go:407-412 | Masking twice with the same key gives back the data (section 5.3 of RFC 6455) |
| WsProofs.MaskedBits | httpd/websocket/conn.go:407-412 | Masking turns over exactly the bits of the data at which the byte of the key that stands there has a 1 |
| WsProofs.HiIsRead | httpd/websocket/conn.go:372-428 | A masked text as browsers send it, byte by byte, is read as what it says |
| WsProofs.WireIsRead | httpd/websocket/conn.go:372-428 | A frame comes off the wire as it went on, masked or not, in any of the three length forms, whatever follows (section 5.2 of RFC 6455) |
| WsProofs.FrameStays | httpd/websocket/conn.go:372-428 | A frame, once whole, is not changed by what follows it |
| WsProofs.CrashesExactly | httpd/websocket/conn.go:372-405 | Looking for a frame panics if and only if its length is given in eight bytes, fits a signed number, and makes the end of the frame overflow |
| WsProofs.TenBytesCrash | httpd/websocket/conn.go:372-405 | Ten bytes do it, and no byte of the body |
| WsProofs.ChunksDoNotMatter | httpd/websocket/conn.go:272-344 | However the network cuts the stream, if no Read is refused for its size, the events, the failure and the final state are those of the whole stream |
| WsMessages.ControlLeavesNoTrace | httpd/websocket/conn.go:326-336 | Pings and pongs anywhere among the frames change neither the messages nor the state nor the failure; every ping is answered, in order (section 5.4 of RFC 6455) |
| WsMessages.FragmentsJoin | httpd/websocket/conn.go:288-325 | What becomes of a message depends only on its whole content, not on how it is cut into fragments, nor on the first reserved bit of any fragment but the first |
| WsMessages.DeliveredExactly | httpd/websocket/conn.go:288-325 | A message, compressed or not, is handed over whole if and only if it is not empty, not too large, can be inflated if it is compressed and, for a text, is valid; an empty one panics if and only if it is a text or compressed |
| WsMessages.StreamIsDelivered | httpd/websocket/conn.go:272-344 | Messages in any fragments, with any first reserved bit on those behind the first, with control frames anywhere, each frame in any form and under any key, cut anyhow: handed over in order, pings answered in order, nothing left |
| WsMessages.SmallIsNotRefused | httpd/websocket/conn.go:273-276 | A stream that fits the read limit as a whole is never refused |
| WsMessages.HeldIsBounded | httpd/websocket/conn.go:272-308 | Between reads a connection never holds more bytes than its limit, nor a message that is larger than a message may be |
| WsMessages.WrittenIsRead | httpd/websocket/conn.go:150-253 | What WriteMessage writes is read by an idle peer as that one message, compressed or not, in any chunks of which none is refused for its size |
| WsMessages.BitsAsDemandedExactly | httpd/websocket/conn.go:182-243 | The frames of WriteMessage carry the first reserved bit on no fragment but the first, as section 6 of RFC 7692 demands, if and only if the message is not compressed or what it was compressed to is one fragment |
| WsConn.Unmask | httpd/websocket/conn.go:407-412 | The body is unmasked in place, and nothing around it changes |
| WsConn.FrameBytes | httpd/websocket/conn.go:202-253 | The buffer of writeFrame is the frame on the wire in its shortest form |
| WsConn.Conn.WritePieces | httpd/websocket/conn.go:182-197 | The loop writes the frames of the whole message |
| WsConn.Conn.WriteMessage | httpd/websocket/conn.go:151-200 | A control message over 125 bytes writes nothing; else the frames of the message, or of what it was compressed to |
| WsConn.Conn.NextFrame | httpd/websocket/conn.go:372-428 | Takes exactly the first frame out of the buffer, waits for an unfinished one, or panics on an overflowing length |
| WsConn.Conn.TakeDataFrame | httpd/websocket/conn.go:288-325 | The message grows and is handed over as the model says |
| WsConn.Conn.TakeControlFrame | httpd/websocket/conn.go:443-498 | Close frames, pings, pongs and reserved ones are answered as the model says |
| WsConn.Conn.Read | httpd/websocket/conn.go:272-344 | Comes to what the model of Read says: failure, buffer, message state, events, and the bytes of the answers |
| WsControl.AcceptedExactly | httpd/websocket/conn.go:353-370 | A frame is accepted if and only if the protocol allows it (sections 5.2, 5.4 and 5.5 of RFC 6455), or it is a fragment of no message, a control frame of over 125 bytes, or a control frame of no known kind; which bits and opcodes give which error |
| WsControl.ControlFailsExactly | httpd/websocket/conn.go:326-336 | An accepted control frame fails if and only if its body is larger than a message may be |
| WsControl.StrayIsHandedOver | httpd/websocket/conn.go:288-325 | A fragment of no message is handed over |
| WsControl.CloseIsAnswered | httpd/websocket/conn.go:443-488 | A close frame on the wire with a code: answered with the same code and text if the code may be sent and the text is UTF-8, with 1002 if not, and not at all if that is over 125 bytes; the connection is closed each time |
| WsControl.BareCloseIsAnswered | httpd/websocket/conn.go:459-466 | A close frame without a code is answered with an empty one |
| WsControl.AnswerIsFine | httpd/websocket/conn.go:72-112 | What it answers is a close frame that it would itself answer in kind |
| TruncWriter.Writer.Write | httpd/websocket/compression.go:91-116 | All but the last four bytes of everything written have gone to the sink, those are held back, and the call claims all its bytes if and only if they fit into what is held back; what has gone on and what is held back are all that was written (section 7.2.1 of RFC 7692) |
| AstarLine.LineEnds | astar/astar.go:244-304 | The line starts at the one end and lands on the other after as many steps as its longer side |
| AstarLine.LineSteps | astar/astar.go:244-304 | Each step goes to one of the eight neighbours |
| AstarLine.LineIsStraight | astar/astar.go:262-302 | Every cell is within half a cell of the ideal line |
| AstarLine.OffsetNext | astar/astar.go:271-276 | The error term stays in its band, and the line crosses over exactly when it says so |
| AstarLine.IsThrough | astar/astar.go:244-304 | True if and only if every cell of the line before the target is walkable |
| AstarLine.IsThroughBorder | astar/astar.go:306-369 | True if and only if the count kept along the line never exceeds three |
| AstarModel.SeenIsReachable | astar/astar.go:119-138 | A node of the tree is reached from the start by moves between free neighbours |
| AstarModel.AllReachableSeen | astar/astar.go:107-138 | When no node is left to expand, every cell that can be reached has been seen |
| AstarSearch.InsertOpen | astar/astar.go:191-204 | The open list gets the one node more and stays sorted |
| AstarSearch.AStar.GetNode | astar/astar.go:224-238 | The node of a cell, made if there was none |
| AstarSearch.AStar.Stamp | astar/astar.go:119-131 | A cell seen before in this search is left alone; else its node is written with its new parent and value |
| AstarSearch.AStar.Explore | astar/astar.go:107-138 | The main loop terminates, and finds the target if and only if it can be reached; the cells noted, where each was come from, their costs and ranks and the order of the open ones are those of the search over cells alone, whatever the cache held |
| AstarSearch.AStar.Search | astar/astar.go:61-181 | Found if and only if the target is walkable and there is a straight line or a way to it; with a straight line the list is empty, and else it is that of the inner points at which the way that the search over cells leads to turns |
| AstarPath.TurnRound | astar/astar.go:147-172 | The parent pointers are turned round in place: each turn points to the one before it, a place is passed over if and only if the straight line from the last turn to the place behind it is passed, and the last turn is the start |
| AstarPath.Rebuild | astar/astar.go:147-178 | The list is the inner ones, in order, of the turns of the way back |
| AstarPath.SmoothIsUnique | astar/astar.go:157-172 | A way back has only one such list of turns |
| AstarPath.SmoothIsPolyline | astar/astar.go:147-178 | The turns are a line from start to target whose consecutive points are neighbours or pass in a straight line |
| AstarHunt.HuntedOnce | astar/astar.go:107-138 | The search over cells leads to only one way |
| AstarSearch.AnswerIsUnique | astar/astar.go:61-181 | So for a grid, a start and a target there is only one list, whatever earlier searches have left in the cache |
| AstarSearch.AnswerIsPolyline | astar/astar.go:147-178 | And it is the inner points of a line of linked points from start to target |
| Rand.DrawnOnce | rand/rand.go:70-92 | Drawing a number leaves exactly the others, in intervals that do not overlap |
| Rand.SomethingLeft | rand/rand.go:69-73 | While not all numbers are drawn there is an interval to draw from |
| Rand.RandomNum | rand/rand.go:60-95 | For any random source: as many different numbers of the range as asked for, or all of them, each the one that the answers of its round stand for |
| Rand.AnyCanComeUp | rand/rand.go:66-93 | Any different numbers of the range can come up, in any order: answers of the source are given for them |
| Rand.AnswersDecide | rand/rand.go:66-93 | And the answers leave no choice |
| RandWeights.PickFinds | rand/rand.go:130-149 | Every random number up to the total of the weights finds a candidate, whatever their signs |
| RandWeights.PickNotNegative | rand/rand.go:130-149 | A random number never picks a candidate of negative weight |
| RandWeights.ChanceOf | rand/rand.go:130-149 | A candidate is picked by exactly as many random numbers as its weight says, the first by one more |
| RandWeights.Choose | rand/rand.go:131-148 | The scan stops at the first candidate at which the weights add up to the random number |
| RandWeights.RandomQSlice | rand/rand.go:106-151 | Whatever the random source: one candidate a round while there is one, none of negative weight, without repetition none twice, and the places beyond them stay empty; one number up to the weights that are left is asked for in every round, and picks its candidate. It panics at, and only at, a round before which the weights that are left add up to less than nought. With repetition that is if and only if some are drawn and all add up to less than nought; without, when more are drawn than have weights that are not negative, if and only if some weight is negative |
| RandWeights.CrashExactly | rand/rand.go:120-149 | The second of these, over everything a run can come to |
| RandWeights.RepeatedCrashExactly | rand/rand.go:120-149 | The first of these |
| RandWeights.PositiveTotalCrashes | rand/rand.go:120-149 | Weights 5 and -3, which add up to 2: two draws without repetition panic whatever the random source |
| RandWeights.SourceDecides | rand/rand.go:130-149 | Weights 1, 5 and -3: which candidate is drawn first decides whether what is left is below nought, so that with fewer draws the panic depends on the source |
| RingBuffer.MaskIsMod | ringbuffer/single_ring_buffer.go:37-56 | For a power of two the mask is the remainder |
| RingBuffer.PowerExactly | ringbuffer/single_ring_buffer.go:89-91 | isPower accepts exactly the powers of two |
| RingBuffer.NewSingleRingBuffer | ringbuffer/single_ring_buffer.go:17-27 | An empty queue if both sizes are powers of two, and else nil |
| RingBuffer.TenIsNoPower | httpc/httpc_manager.go:17 | 10 and 100 are none, so that the queue of the HTTP client is nil |
| RingBuffer.SingleRingBuffer.Put | ringbuffer/single_ring_buffer.go:37-47 | The value goes to the end of the queue, unless the cache was cut and its end is reached: then the call panics |
| RingBuffer.SingleRingBuffer.Pop | ringbuffer/single_ring_buffer.go:49-61 | The first value leaves the queue |
| RingBuffer.SingleRingBuffer.Expand | ringbuffer/single_ring_buffer.go:63-81 | The queue is the same, in order, in a cache twice as long |
| RingBuffer.SingleRingBuffer.Narrow | ringbuffer/single_ring_buffer.go:83-87 | The cache is cut, and cap is not |
| RingRuns.NewBreaksExactly | ringbuffer/single_ring_buffer.go:17-87 | Over every run of puts and pops, from a new buffer of any sizes: a put panics if and only if it comes when the queue has held maxCap values, or was made with more places than that, has run empty since, and maxCap more were put since it last did; the one exception is a buffer for one value that has never held two |
| RingRuns.SafeWhileSmall | ringbuffer/single_ring_buffer.go:37-61 | So a buffer that never holds maxCap values never panics, and counts as it should |
| RingRuns.GrownAndDrainedBreaks | ringbuffer/single_ring_buffer.go:37-87 | And maxCap values put and popped and maxCap + 1 put again: the last one panics, whatever the buffer was made with |
| Mailbox.RunKeepsOrder | kernel/context.go:148-174 | Over any run of arrivals, nested calls and casts to itself, an actor handles messages in the order in which they came |
| Mailbox.OwnOrderExactly | kernel/context.go:80-86 | Over every run, the messages that an actor casts to itself come in the order in which it cast them if and only if it never casts one into an empty channel while an earlier one is still with the self-sender |
| Mailbox.OwnMessagesSwapped | kernel/context.go:80-86 | A run after which two such messages have been handled in the wrong order |
| Mailbox.CrashesExactly | kernel/context.go:169-174 | Over every run, a message is lost to a panic if and only if the queue has held 32, has run empty since, and takes one more than 32 since it last did |
| Mailbox.FewNeverCrash | kernel/context.go:169-174 | So a run that never queues 32 messages at a time never panics |
| Mailbox.Context.RecMsg | kernel/context.go:169-174 | The message goes to the end of the queue, made with 4 and 32 when first needed; it panics exactly when the sizes of the queue say so |
| Mailbox.Context.CastSelf | kernel/context.go:80-86 | Into the queue if the channel is empty, else by way of the self-sender; what that does to the queue and whether it panics |
| Mailbox.Context.TakeInCall | kernel/context.go:160-162 | A message that comes during a call moves from the channel to the queue |
| Mailbox.Context.Handle | kernel/actor.go:270-280 | The queue first, then the channel |
| Manager.RunIsGood | httpd/manager.go:33-71 | In every run idle and busy workers are all there are and at most the maximum, requests wait only when no worker is idle and none may be started, and requests are given out in the order they came |
| Manager.StepIsGood | httpd/manager.go:57-65 | A request goes to a worker that is not busy |
| Manager.WorkersStayExactly | httpd/manager.go:22-43 | The queue of idle workers never panics, in any run of the pool, if and only if the pool has fewer than 128 workers, or fewer than 2^30 and no power of two: with a power of two from 128 on it is as long as there are workers |
| Manager.CrashesExactly | httpd/manager.go:18-71 | Over every run, a request is lost to a panic if and only if its queue has held 2048, has run empty since and takes one more than 2048 since it last did; and a worker in the same way, by the size of its queue |
| Manager.FewNeverCrash | httpd/manager.go:57-65 | So a run in which fewer than 2048 requests wait at a time loses none |
| Manager.ManagerState.constructor | httpd/manager.go:18-32 | An empty pool, with queues of the sizes that the two shifts give |
| Manager.ManagerState.NewRequest | httpd/manager.go:57-65 | An idle worker, else a new one, else the queue; what that does to both queues, and when it panics |
| Manager.ManagerState.WorkerDone | httpd/manager.go:38-43 | A worker that comes back gets the first request that waits, else it is idle; if the queue panics, the worker is lost |

## Left out

- TimerProofs.RunIsPunctual: ticks are exactly minTick apart and minTick divides a second, as SetTimerMinTick demands; jitter, and groups with a tick of their own that differs from the one `tLoop` uses, are not modelled.
- TimerLists.ATimer.LoopTimer: whether a process is alive is a snapshot taken for the whole tick; a node holds its timer as a value, and the five heads are one sequence field.
- TimerProofs.EveryDeadlineIsMet: the delay of a message in the channels is a parameter of each timer, with which deadlines are stated.
- Bpool.Buff.Append: pooled buffers are taken as fresh; `Free` and the reuse of a buffer after it are not modelled.
- GateConn.ConnNbio.OnRead: the socket is a stream and a script of outcomes; deadlines, `Recv` and closing races are not modelled.
- PbProofs.DecodeOfEncode: values whose length prefixes do not fit 16 bits are left out here; of those, text, slices and maps as a whole are covered by TextExactly, SliceExactly and MapExactly, and a prefix that is too long deeper inside a value is not.
- PbFailures.EncodeFailsExactly: a map whose values are pointers or maps is counted as failing; the encoder reads such a value through its first word, which panics for a nil one and writes bytes of something else for another, and those bytes are not modelled.
- PbFailures.DecodeFailsExactly: bytes that are no encoding of a value are covered by the methods of PbCodec only.
- PbFailures.LostExactly: says which types can hold a value that is lost, whatever the lengths of its prefixes.
- PbSchema.Parse: names of slice, map and pointer types are not modelled, as they change nothing.
- PbProofs.RoundTripExactly: struct keys of maps that hold pointers are compared by content; a float is its bit pattern.
- PbMessages.Encode: `EncodeBuff` and the exported helpers `DecodeInt64`, `DecodeInt32` and `DecodeString` are not modelled; what a node makes of a decoded pid is not part of the codec.
- PbSchema.MakeDef: the order in which the program enumerates the definitions is a parameter; coders are not stored in the global array.
- HttpModel.ParsingIsSound: `url.ParseRequestURI`, `http.ParseHTTPVersion` and `CanonicalHeaderKey` are uninterpreted; the states for reading responses cannot be entered and are left out.
- HttpRead.Parser.Read: the buffer of the cache is a sequence, and the callback is a list of the requests handed over.
- HttpExactly.ServedExactly: assumes that the canonical name of a header field is not empty, which `CanonicalHeaderKey` grants; it says which texts are served, and not which error the others are refused with.
- HttpParser.SplitDoesNotMatter: needs that neither side is refused for the read limit, which counts what one call holds.
- WsMessages.WrittenIsRead: deflate and UTF-8 validity are uninterpreted, and inflating is assumed of nothing but what it returns; errors of the socket while writing are not modelled.
- WsConn.Conn.Read: after a failure the fields of the connection are not described, except for its buffer; what is handed over is a value, so that sharing of the buffer with the receiver is not seen.
- AstarSearch.AStar.Search: the first and last columns of the grid are blocked and no node carries the current stamp, so that neither an index nor a stamp means two things; the rounding of the inputs, integer widths and the quality of the path, which the source itself calls not the best, are left out; the open list is a sequence and a parent is the number of a node, so that the move of the nodes when their slice grows is not seen.
- AstarLine.IsThrough: the two ends differ, as Search makes sure; on equal ends the loop would run on.
- RandWeights.RandomQSlice: integer widths and reflection are left out, and so is a negative number of draws; with negative weights and no more draws than candidates of other weights, the panic depends on the random source, and is given by what has been drawn; the chances of candidates are given for weights that are not negative.
- Rand.RandomNum: integer widths are left out.
- Mailbox.RunKeepsOrder: nil messages, timeouts of calls, and answers that match no call are left out.
- Manager.ManagerState.NewRequest: a worker that fails to start is left out.
- Manager.WorkersStayExactly: workers are started as requests come and come back when they are done; a worker lost to a panic ends the run.
- RingRuns.NewBreaksExactly: sizes that overflow an int are left out.
- TruncWriter.Writer.Write: the sink never fails.
- The HTTP upgrade handshake, the node handshake, the HTTP client, the console, the logger, MySQL and the unfinished `ringbuffer/ring_buffer.go` are left out: thin, foreign or unfinished.
- Supervisors, links and exits of actors are left out: they would add members that follow from their bodies.
