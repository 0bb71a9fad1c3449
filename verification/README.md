# The byte path of a WebSocket message

The library `ext/easywsclient` carries messages between two programs: `sendData` frames and masks a
message into a transmit buffer, `poll` moves bytes between the buffers and a socket, the shared-memory
socket moves them through two lock-free rings, and `_dispatchBinary` takes frames off the receive
buffer and calls back with messages. These modules model that path from `sendData` on one side to
`receiveMessage` on the other, each part in the form the source has it, and prove what each part
promises and what they promise together.

| file | what it models |
|---|---|
| `FastXor.dfy` | masking in place: byte loop, aligned 64-bit blocks, and what they both compute |
| `SimpleBuffer.dfy` | the growable sliding byte window |
| `Frame.dfy`, `Stream.dfy` | frames on the wire; streams of frames and the messages they carry |
| `Octets.dfy` | what opcodes, lengths and limits come to, octet by octet |
| `Endpoint.dfy` | one end of a connection as a transition system; properties of all its runs |
| `WebSocket.dfy` | the class `WebSocketImpl`, every method a refinement of that transition system |
| `Socket.dfy` | a socket as `WebSocketImpl` sees one: an oracle |
| `Handshake.dfy`, `Connector.dfy` | the opening handshake: machine, both sides at once, and the code that runs it |
| `Ring.dfy` | the ring as two step machines whose steps interleave in any order |
| `Spsc.dfy`, `SharedSocket.dfy` | the ring and the shared-memory socket as their callers use them |
| `Session.dfy` | two sides joined by two rings, from the first byte of the handshake on, every ring step a move of its own |
| `EndToEnd.dfy` | what the two sides deliver to each other |
| `Progress.dfy` | that everything sent to an open side comes to be delivered, under every fair schedule |
| `Closing.dfy` | what a closing side still delivers, and what is lost |

The main results are `EndToEnd.Delivery`, `EndToEnd.DeliveryFrom`, `Progress.DeliveryReached`, `Closing.ClosingExactly`, `Closing.CloseReached`, `Ring.FifoRefinement`, `Ring.RaceFreedom`, `Ring.Reservation`, `Ring.ReadExactly`, `Ring.WriteExactly`,
`Endpoint.ChunkingInvariance`, `Endpoint.InboundFaithful`, `Endpoint.OutboundConservation`,
`Endpoint.GracefulClose`, `Endpoint.StuckAtClose`, `Frame.RoundTrip`, `Frame.WireRoundTrip` with `Frame.ParsedIsWire`, `FastXor.FastXor`,
`Handshake.Agreement` and `WebSocket.WebSocketImpl.Poll`.

## How it fits together

A method of a class changes its fields as the source does and is proved against a function:
`FastXor.FastXor` against `MaskRange`, `SPSC.Write` and `SPSC.Read` against appending to and dropping
from the bytes between the indices, the methods of `WebSocketImpl` against the functions of
`Endpoint` through `View()`. `Poll` is proved to be a run of the events of `Endpoint`, so the lemmas
about all runs speak about it. `Session` joins two such endpoints and their handshake machines by the
step machines of `Ring`; a completed ring operation is the event `Sent` or `Received` of the endpoint
that called it, or a byte of the handshake, or a line of it said. The client's request goes out in any
number of calls, the server reads while it does, either side may be open first, and frames may follow
the handshake text in the same ring at once. Each side goes through `poll` in the
order of the source: it receives until nothing is there, sends until nothing is left or nothing is taken,
closes a closing connection whose transmit buffer is then empty, and dispatches frame by frame; between
two frames, as between two polls, a message may be sent or the connection closed, so callbacks may do
either. The invariant says of each ring that what went into it is
the handshake text and then the frames accepted, and of what came out the same.

Histories (frames queued, bytes accepted and arrived, messages delivered, bytes offered, sent and got)
are fields of the values of `Endpoint`, `Ring` and `Session` and ghost fields of the classes. They are
never read to decide anything.

## What is assumed

- Memory is sequentially consistent. The source stores its indices with `memory_order_relaxed`
  (`ext/easywsclient/SPSC.h:87`, `131`, `149`); the model interleaves single loads, byte copies and
  stores but does not reorder them.
- The slide in `growBuffer` calls `memcpy` on ranges that may overlap
  (`ext/easywsclient/SimpleBuffer.cpp:108`). It is modelled as a byte loop that runs forward.
- The machine is little-endian, as the block form of `fastXOR` needs.
- Addresses: an array carries the address of its first byte as an arbitrary number; only the remainder
  modulo eight matters, and all of them are covered.
- Masking keys are an arbitrary sequence, one per draw. Elapsed time appears as a flag: timed out or not.
- A socket answers `receive` and `send` with a count, 0, or -1 with or without "would block"; what it
  answers is arbitrary. `wouldBlock() || inProgress()` is one flag.
- An allocation always succeeds.
- Callbacks do not call `poll` on the same connection.

## Where the code is not what one would expect

The model does what the code does; where that is not what a comment, a test program or RFC 6455 says,
a lemma says exactly when the two agree.

- `write` subtracts the reserved byte twice (`ext/easywsclient/SPSC.h:118` and `176`), so a write takes
  at most `capacity() - 1` bytes and occupancy stays at or below the ring's size less two. A write is
  complete exactly when it is empty or smaller than `capacity()` was when it looked:
  `Ring.FullWriteExactly`. The guard `capacity() >= slen + 2` of the test program is therefore one byte
  short: `Ring.GuardOneShort` says that the two writes behind it are complete in every run, whatever is
  read meanwhile, exactly when the inequality is strict.
- A fragmented message is reported as text according to its last frame
  (`ext/easywsclient/easywsclient.cpp:451`), where section 5.4 of RFC 6455 goes by the first.
  `Stream.KindOfFragments` says for which messages the two agree, with control frames anywhere between
  the fragments; `Stream.FragmentedTextReportedBinary` gives one for which they do not.
- The test for a non-empty accumulator at `ext/easywsclient/easywsclient.cpp:444` never suppresses a
  call: with nothing accumulated, the last frame has already taken the direct path at line 428. A
  message whose fragments are all empty is therefore reported too, and `Stream.Reassembly` needs no
  condition on the payloads.
- A closing connection is closed by the first `poll` whose send loop empties the transmit buffer
  (`ext/easywsclient/easywsclient.cpp:337-341`), whatever is still on its way to it; a closed one is
  never read (lines 266-273). Messages of the other side can be lost that way: `Closing.CloseLosesText`
  has the run. `Closing.ClosingExactly` says which are not: it delivers all the other side has queued
  exactly when the bytes up to the end of the last data frame had arrived at that moment. Messages to a
  connection that is not ending always come to be delivered: `Progress.DeliveryReached`.
- `close` during the handshake leaves the rest of the handshake text to the frame parser.
  `EndToEnd.CloseMisreads` has bytes of which a client that does so delivers a message never sent.
- A CLOSE frame, or one with an unknown opcode, is never consumed; it stays at the head of the receive
  buffer for good: `Endpoint.StuckAtClose`.
- The comment beside `DEFAULT_MAXIMUM_BUFFER_SIZE` says 64 megabytes; the constant is 512
  (`ext/easywsclient/easywsclient.cpp:26`), and the model uses the constant.
- After the first byte an index of the ring never returns to 0; position 0 is then written as the
  ring's size. `Ring.CalcSizeExact` shows that `calcSize` is exact nevertheless, on stale indices too
  and in 32-bit arithmetic.

## Model

| member | source | states |
|---|---|---|
| FastXor.MaskAt | ext/easywsclient/FastXOR.cpp:18-26 | masked octet i is octet i of the data combined with octet i mod 4 of the key |
| FastXor.MaskConcat | ext/easywsclient/FastXOR.cpp:59-64 | masking a concatenation is masking the first part and then the second with the key rotated by the first part's length |
| FastXor.RotateWhole | ext/easywsclient/FastXOR.cpp:59-63 | only the length mod 4 matters for the rotation |
| FastXor.MaskInvolution | ext/easywsclient/easywsclient.cpp:422-425 | unmasking with the key a payload was masked with restores it |
| FastXor.MaskRangeSplice | ext/easywsclient/FastXOR.cpp:18-26 | going through a range octet by octet replaces that range by its masked form and changes nothing outside it |
| FastXor.MaskRangeSplit | ext/easywsclient/FastXOR.cpp:59-101 | a range may be masked in two adjacent pieces, the second with the key rotated by the length of the first |
| FastXor.WordXor | ext/easywsclient/FastXOR.cpp:79-88 | combining two little-endian 64-bit words combines their eight octets one by one |
| FastXor.WordMask | ext/easywsclient/FastXOR.cpp:75-88 | the word made of the key twice over masks eight octets as the byte form does |
| FastXor.RotatedKey | ext/easywsclient/FastXOR.cpp:60-63 | the four assignments to alignKey rotate the key by the position reached |
| FastXor.XorBytes | ext/easywsclient/FastXOR.cpp:18-26 | masks exactly the range and returns its length mod 4 |
| FastXor.SlowXor | ext/easywsclient/FastXOR.cpp:28-31 | masks exactly the range |
| FastXor.Prologue | ext/easywsclient/FastXOR.cpp:44-66 | masks up to the first aligned address or the end of the data, whichever is first, and hands on the key rotated to match; blocks that follow start aligned |
| FastXor.XorBlocks | ext/easywsclient/FastXOR.cpp:73-91 | masks eight octets at a time at aligned addresses only, together exactly the range of the blocks |
| FastXor.BlocksAndTail | ext/easywsclient/FastXOR.cpp:68-102 | blocks and left-over bytes together mask exactly what the byte form would |
| FastXor.FastXor | ext/easywsclient/FastXOR.cpp:36-107 | for every address, length and key the memory afterwards is what slowXOR leaves: the same postcondition |
| FastXor.RoundTrip | ext/easywsclient/easywsclient.cpp:694 | masked at one address, copied and unmasked at any other, the data is back, and nothing around the copy has changed |
| SimpleBuffer.Buffer.constructor | ext/easywsclient/SimpleBuffer.cpp:12-19 | a new window is empty and its limit is at least its size |
| SimpleBuffer.Buffer.Clear | ext/easywsclient/SimpleBuffer.cpp:36-39 | the window is empty afterwards |
| SimpleBuffer.Buffer.AddBuffer | ext/easywsclient/SimpleBuffer.cpp:43-64 | appends exactly the data, through slide and reallocation, and succeeds exactly when the request fits, sliding is allowed, or the doubled size is within the limit; where the window then lies is settled; a refusal leaves it as it was; with no data, the bytes already written at the end become part of the window |
| SimpleBuffer.Buffer.GrowBuffer | ext/easywsclient/SimpleBuffer.cpp:95-144 | keeps the contents; after success the request fits and the window starts at 0; after a refusal nothing has changed |
| SimpleBuffer.AcceptsPlainly | ext/easywsclient/SimpleBuffer.cpp:95-128 | when a request is met, in plain arithmetic |
| SimpleBuffer.RoomyEnough | ext/easywsclient/SimpleBuffer.cpp:101-142 | the room made is enough and the window as long as before; a slide keeps the buffer's size, a reallocation at least doubles it within the limit |
| SimpleBuffer.Buffer.SlideDown | ext/easywsclient/SimpleBuffer.cpp:108-111 | the kept bytes arrive at the front intact although source and destination overlap |
| SimpleBuffer.Buffer.Consume | ext/easywsclient/SimpleBuffer.cpp:147-161 | drops that many bytes from the front, or all of them when asked for more |
| SimpleBuffer.Buffer.ConfirmCapacity | ext/easywsclient/SimpleBuffer.cpp:164-180 | keeps the contents, succeeds under the same condition as an append of that size, and then there is room for it |
| Frame.RoundTrip | ext/easywsclient/easywsclient.cpp:616-695 | for every opcode, payload, key and mask setting, parsing an encoded frame followed by anything gives FIN, the opcode and the payload, and takes exactly the frame |
| Frame.PrefixIncomplete | ext/easywsclient/easywsclient.cpp:354-415 | no proper prefix of an encoded frame is taken for a frame |
| Frame.ParseStable | ext/easywsclient/easywsclient.cpp:354-415 | once a frame can be read, bytes arriving later do not change how it is read |
| Frame.ParsePrefix | ext/easywsclient/easywsclient.cpp:410-424 | how a frame is read depends on the bytes of that frame alone |
| Frame.WireRoundTrip | ext/easywsclient/easywsclient.cpp:354-424 | every frame a peer can lay out by section 5.2 of RFC 6455 is read back in all its fields and takes exactly its octets: FIN or not, any reserved bits and opcode, masked or not, in any length form that holds its length |
| Frame.ParsedIsWire | ext/easywsclient/easywsclient.cpp:354-424 | conversely, whatever is read as a frame is the layout of what was read: the parser accepts nothing else |
| Frame.EncodeIsWire | ext/easywsclient/easywsclient.cpp:616-695 | what sendData appends is laid out as section 5.2 of RFC 6455 says, with FIN, no reserved bit and the shortest length form |
| Frame.HeaderFields | ext/easywsclient/easywsclient.cpp:359-409 | the parser reads back every field of a header: first octet, mask flag, length and key |
| Frame.BigEndianOf | ext/easywsclient/easywsclient.cpp:376-394 | an extended length field written back from the length read is the field itself |
| Frame.ReadEight | ext/easywsclient/easywsclient.cpp:384-394 | the eight octets, each shifted into its place, make the number the field stands for |
| Frame.BigEndianEight | ext/easywsclient/easywsclient.cpp:659-666 | the eight octets shifted out of a length are its field |
| Frame.BigEndianRoundTrip | ext/easywsclient/easywsclient.cpp:379-393 | the extended length fields are read back as the lengths written, for every length that fits |
| Frame.MinimalHeader | ext/easywsclient/easywsclient.cpp:616-679 | no header that says the same is shorter than the one written (section 5.2 of RFC 6455) |
| Stream.FramesConcat | ext/easywsclient/easywsclient.cpp:350-416 | the frames of a stream that starts with whole frames are those frames followed by the frames of the rest |
| Stream.MessagesConcat | ext/easywsclient/easywsclient.cpp:418-458 | the calls made for two runs of frames are those for the first and then those for the second, started with what the first left accumulated |
| Stream.Reassembly | ext/easywsclient/easywsclient.cpp:426-455 | a FIN data frame makes one call with all data payloads since the previous one, control frames and empty fragments notwithstanding, and with the kind of its own opcode; frames before it make none |
| Stream.OneCallPerEnd | ext/easywsclient/easywsclient.cpp:426-455 | there are as many calls as FIN data frames |
| Stream.ControlFramesApart | ext/easywsclient/easywsclient.cpp:459-476 | control frames, wherever they stand, change neither the calls made nor what is left accumulated |
| Stream.KindOfFragments | ext/easywsclient/easywsclient.cpp:451 | a message fragmented as section 5.4 of RFC 6455 lays down, control frames injected anywhere, is reported with its first data frame's kind exactly when it has one data frame only or is not text |
| Stream.FragmentedTextReportedBinary | ext/easywsclient/easywsclient.cpp:451 | a text message in two fragments with a PING between them that is reported as binary |
| Octets.OpcodesTaken | ext/easywsclient/easywsclient.cpp:418-486 | the opcodes taken off the stream are 0, 1, 2, 9 and 10, those of them with data 0, 1 and 2 |
| Octets.HeadDecides | ext/easywsclient/easywsclient.cpp:418-487 | a complete frame at the head of the receive buffer is consumed if and only if the last four bits of its first octet are 0, 1, 2, 9 or 10; any other stays and the connection is then ending |
| Octets.OneCall | ext/easywsclient/easywsclient.cpp:426-457 | a data frame with the high bit of its first octet set makes one call with everything accumulated and its payload, as text if and only if its opcode is 1; any other data frame is accumulated |
| Octets.FirstOctets | ext/easywsclient/easywsclient.cpp:359-360 | first octets 0x81, 0x82, 0x80 and 0x01 are read as a whole text, a whole binary message, a last and a first fragment |
| Octets.SentOctets | ext/easywsclient/easywsclient.cpp:620 | texts, binary messages, PINGs, PONGs and closes begin with 0x81, 0x82, 0x89, 0x8A and 0x88 |
| Octets.PingOctets | ext/easywsclient/easywsclient.cpp:459-472 | a frame with opcode 9 on an open connection is consumed and answered by one frame that begins with 0x8A and has the same payload |
| Octets.CloseOctets | ext/easywsclient/easywsclient.cpp:698-717 | close appends 88 80 00 00 00 00 and makes the state CLOSING, once |
| Octets.SendExactly | ext/easywsclient/easywsclient.cpp:601-696 | one frame with the next key is appended and nothing else, or nothing once the connection is ending, and a key is drawn either way |
| Octets.HelloMasked | ext/easywsclient/easywsclient.cpp:354-425 | the masked "Hello" of section 5.7 of RFC 6455 is read as it says |
| Octets.HelloDelivered | ext/easywsclient/easywsclient.cpp:348-489 | the unmasked one is delivered as that text |
| Octets.OversizeExactly | ext/easywsclient/easywsclient.cpp:359-410 | a frame is beyond the model if and only if its length is in eight octets and, with the longest header, does not fit in 32 bits |
| Octets.SaneExactly | ext/easywsclient/easywsclient.cpp:348-489 | bytes are within the model if and only if no dispatch of them comes to such a frame |
| Octets.SaneWire | ext/easywsclient/easywsclient.cpp:348-489 | a frame any peer can lay out is within the model with what follows it if and only if what follows it is |
| Octets.SaneQueue | ext/easywsclient/easywsclient.cpp:601-696 | everything an endpoint queues is within the model, cut off anywhere |
| Octets.BearableExactly | ext/easywsclient/easywsclient.cpp:348-489 | the condition under which a dispatch and poll cannot stop short, in plain numbers |
| Endpoint.ChunkingStep | ext/easywsclient/easywsclient.cpp:348-489 | dispatching before more bytes arrive makes no difference once they have been dispatched too |
| Endpoint.ChunkingInvariance | ext/easywsclient/easywsclient.cpp:348-489 | however a stream is cut into pieces, with a dispatch after each, messages, PONGs and unconsumed bytes end up as with one dispatch of the whole |
| Endpoint.ChunkingExact | ext/easywsclient/easywsclient.cpp:348-489 | with at least one piece, the dispatch after the last one already ends where one dispatch of the whole does |
| Endpoint.DispatchSettles | ext/easywsclient/easywsclient.cpp:348-489 | a dispatch leaves no frame it could take, and a second one changes nothing |
| Endpoint.DispatchCloses | ext/easywsclient/easywsclient.cpp:477-487 | a complete frame left behind by a dispatch is a CLOSE or unknown one, and the connection is then ending |
| Endpoint.StepOutbound | ext/easywsclient/easywsclient.cpp:601-717 | every event keeps the outbound invariant: bytes accepted and bytes waiting are the frames queued, in order, and a close frame is the last |
| Endpoint.OutboundConservation | ext/easywsclient/easywsclient.cpp:312-335 | over every run and every pattern of partial sends, bytes accepted followed by bytes queued are the encodings of all frames queued; once CLOSING the last of them is the close frame |
| Endpoint.GracefulClose | ext/easywsclient/easywsclient.cpp:337-341 | a run without failure that ends in CLOSED has had its whole stream accepted, close frame included |
| Endpoint.Lifecycle | ext/easywsclient/easywsclient.cpp:698-717 | over every run the state only moves from CONNECTING through OPEN and CLOSING to CLOSED, and from CLOSING on no frame is queued |
| Endpoint.StuckAtClose | ext/easywsclient/easywsclient.cpp:477-487 | over every run after a CLOSE or unknown frame has reached the head of the receive buffer, it stays there and no message is delivered |
| Endpoint.DispatchLeavesCloseQueued | ext/easywsclient/easywsclient.cpp:337-345 | a dispatch never leaves a closing connection with nothing to send unless it was one already |
| Endpoint.DeliverMeets | ext/easywsclient/easywsclient.cpp:426-455 | the shortcut past the accumulator and the path through it make the same calls and leave the same bytes accumulated as plain reassembly |
| Endpoint.ConsumeInbound | ext/easywsclient/easywsclient.cpp:418-476 | acting on a frame that passes keeps the inbound invariant: what has been taken off the stream is whole frames and accounts for every call made and every byte accumulated |
| Endpoint.InboundFaithful | ext/easywsclient/easywsclient.cpp:280-345 | over every run, messages delivered followed by those still in the receive buffer are the messages of all bytes that ever arrived |
| Endpoint.PingsAnswered | ext/easywsclient/easywsclient.cpp:459-472 | over every run the PONGs queued carry the payloads of the PINGs taken, in order: all of them while the connection is not ending, the first of them afterwards |
| Endpoint.FreshKeys | ext/easywsclient/easywsclient.cpp:608-609 | over every run of a new connection the frames queued, but for the close, carry the keys of strictly increasing draws |
| Endpoint.Possible | ext/easywsclient/easywsclient.cpp:247-346 | messages can be sent and the connection closed in every state; everything else goes exactly with its state and what waits |
| Endpoint.FreshMeets | ext/easywsclient/easywsclient.cpp:92-102 | a new connection meets the outbound, inbound and PONG invariants that every run keeps |
| WebSocket.WebSocketImpl.constructor | ext/easywsclient/easywsclient.cpp:92-102 | a new connection is CONNECTING with three empty buffers of the default size |
| WebSocket.WebSocketImpl.FillHeader | ext/easywsclient/easywsclient.cpp:616-680 | the array holds the header of the specification in its first headerLen bytes |
| WebSocket.WebSocketImpl.SendData | ext/easywsclient/easywsclient.cpp:601-696 | a key is drawn, and one encoded frame and nothing else is appended to the transmit buffer, or nothing when the connection is ending; it succeeds exactly when the buffer takes a header and then a payload of these sizes where it lies, which it does as long as twice what waits and five times the payload stay below 512 megabytes |
| WebSocket.WebSocketImpl.SendText | ext/easywsclient/easywsclient.cpp:499-515 | one frame with opcode 1 is sent as by sendData |
| WebSocket.WebSocketImpl.SendBinary | ext/easywsclient/easywsclient.cpp:517-536 | one frame with opcode 2 is sent as by sendData |
| WebSocket.WebSocketImpl.SendPing | ext/easywsclient/easywsclient.cpp:491-497 | one frame with opcode 9 and no payload is sent as by sendData |
| WebSocket.WebSocketImpl.AppendFrame | ext/easywsclient/easywsclient.cpp:680-695 | the transmit contents afterwards are the old contents and one encoded frame, even when an append slides or reallocates, exactly when both appends are taken |
| WebSocket.WebSocketImpl.MaskLast | ext/easywsclient/easywsclient.cpp:688-695 | masking in place touches the payload just appended and nothing queued before it |
| WebSocket.WebSocketImpl.Close | ext/easywsclient/easywsclient.cpp:698-717 | the state becomes CLOSING and the close frame is appended, once only; if the buffer refuses it, the state alone changes |
| WebSocket.WebSocketImpl.Unmask | ext/easywsclient/easywsclient.cpp:422-425 | unmasking in place gives the payload and leaves the bytes behind the frame alone |
| WebSocket.WebSocketImpl.Accumulate | ext/easywsclient/easywsclient.cpp:426-455 | the call made and the bytes accumulated are those of the specification; after a refused append a last fragment reports what came before it and clears it, as in the source |
| WebSocket.WebSocketImpl.ActOn | ext/easywsclient/easywsclient.cpp:418-487 | a frame that passes is acted on and consumed, any other closes the connection and stays |
| Endpoint.ConsumeLoad | ext/easywsclient/easywsclient.cpp:418-476 | acting on a frame, PONG and accumulation included, never raises the load that decides whether a buffer can refuse |
| WebSocket.WebSocketImpl.DispatchOne | ext/easywsclient/easywsclient.cpp:350-488 | one turn of the loop is one step of the specified dispatch, and an incomplete frame is left as it is |
| WebSocket.WebSocketImpl.DispatchBinary | ext/easywsclient/easywsclient.cpp:348-489 | the loop ends and does exactly what the specified dispatch does; it stops short only for a frame beyond 2^32 octets or when what has been received and waits comes near what the buffers can bear |
| WebSocket.WebSocketImpl.ReceiveBytes | ext/easywsclient/easywsclient.cpp:290-306 | exactly the bytes the socket gave are appended to the receive buffer, written at its end in place |
| WebSocket.WebSocketImpl.ReceiveLoop | ext/easywsclient/easywsclient.cpp:280-307 | receives until the socket blocks or fails or more than 255 megabytes wait; every byte the socket gave has arrived, in order, and a failure is the socket's |
| WebSocket.WebSocketImpl.SendOne | ext/easywsclient/easywsclient.cpp:312-332 | what the socket took is what left the front of the transmit buffer |
| WebSocket.WebSocketImpl.SendLoop | ext/easywsclient/easywsclient.cpp:312-332 | sends until nothing is left or the socket blocks or fails; the bytes counted as accepted are those the socket took from the front of the buffer, and a failure is the socket's |
| WebSocket.WebSocketImpl.FinishPoll | ext/easywsclient/easywsclient.cpp:337-345 | a closing connection with nothing left to send is closed, and only such a one; frames are dispatched exactly when there is a callback |
| WebSocket.WebSocketImpl.PollOpen | ext/easywsclient/easywsclient.cpp:280-345 | is a run of events: receives, then sends, then either a failure or the end of a closing connection and a dispatch; without failure all that could be received and sent has been, and no closing connection is left with nothing to send |
| WebSocket.WebSocketImpl.PollConnecting | ext/easywsclient/easywsclient.cpp:260-264 | takes at most one byte, and the connection opens or closes exactly when the handshake machine does |
| WebSocket.WebSocketImpl.Poll | ext/easywsclient/easywsclient.cpp:247-346 | every call is a run of events of the endpoint, so all properties of runs hold of it; on an open connection it receives and sends all it can and dispatches exactly when there is a callback, on one still connecting it takes a step of the handshake, on a closed one it does nothing; it stops short only beyond what the buffers can bear |
| Socket.Wsocket.Receive | ext/easywsclient/easywsclient.cpp:290 | a result above 0 comes with that many bytes and any other with none |
| Socket.Wsocket.Send | ext/easywsclient/easywsclient.cpp:316 | a result above 0 says how many bytes from the front have been taken; otherwise none have |
| Handshake.IndexBounded | ext/easywsclient/easywsclient.cpp:908-917 | on any input the line index stays below 255 while the connection is being made, and is 0 when it opens |
| Handshake.FeedSplit | ext/easywsclient/easywsclient.cpp:818-918 | how the bytes are split over calls does not matter, neither for the outcome nor for what is left unread |
| Handshake.FeedLine | ext/easywsclient/easywsclient.cpp:821-831 | a plain line followed by CR LF acts as that one line and nothing of what follows it is taken |
| Handshake.FeedAnyLine | ext/easywsclient/easywsclient.cpp:821-831 | fewer than 255 bytes and a line end act as that one line, whatever they are, and nothing behind is taken |
| Handshake.FeedUnended | ext/easywsclient/easywsclient.cpp:908-917 | bytes without a line end leave the machine waiting as long as there are fewer than 255, and drop the connection after that |
| Handshake.ServerDecides | ext/easywsclient/easywsclient.cpp:845-862 | a server replies to the request line it asks for; on any other first line it drops the connection, says nothing and reads no further |
| Handshake.OnlyOnRequest | ext/easywsclient/easywsclient.cpp:845-862 | whatever the bytes, a server that has replied or opened has had that request line first |
| Handshake.ClientDecides | ext/easywsclient/easywsclient.cpp:863-875 | a client goes on after a first line with status 101 and drops the connection on any other |
| Handshake.OnlyOn101 | ext/easywsclient/easywsclient.cpp:863-897 | whatever the bytes, a client that has opened has had a status 101 first |
| Handshake.Status101Made | ext/easywsclient/easywsclient.cpp:865-866 | a line of the version, any white space, a plus sign or none, any zeros and 101 is a status 101 |
| Handshake.Status101Parts | ext/easywsclient/easywsclient.cpp:865-866 | and no other line is |
| Handshake.ServerReads | ext/easywsclient/easywsclient.cpp:834-863 | a server opens on the request it asks for, whatever headers follow, answers with its six lines, and leaves all bytes behind the blank line unread |
| Handshake.ClientReads | ext/easywsclient/easywsclient.cpp:863-897 | a client opens after a 101 status line and five more lines, whatever these say, and leaves all bytes behind them unread |
| Handshake.Agreement | ext/easywsclient/easywsclient.cpp:807-919 | in every interleaving of the two sides and of the frames each sends once open, neither side drops the connection, some side has a byte to take until both are open, and an open side finds exactly the other's frames waiting |
| Handshake.SourceProper | ext/easywsclient/easywsclient.cpp:848-859 | the request line and the six lines of answer in the code meet what Agreement asks of them |
| Connector.StrLen | ext/easywsclient/easywsclient.cpp:839 | finds the end of the C string, which is the text before the first NUL |
| Connector.Connector.SocketSendString | ext/easywsclient/easywsclient.cpp:793-800 | offers exactly the line and its line end to the socket |
| Connector.Connector.EndLine | ext/easywsclient/easywsclient.cpp:823-831 | what the buffer then holds as a C string is the line without CR, up to its first NUL, whatever older lines left behind it |
| Connector.Connector.OnLine | ext/easywsclient/easywsclient.cpp:833-904 | takes the machine's step for a line, and what is offered to the socket is the machine's reply |
| Connector.Connector.TakeByte | ext/easywsclient/easywsclient.cpp:819-918 | takes the machine's step for the byte just received, without leaving the buffer |
| Connector.Connector.ProcessConnection | ext/easywsclient/easywsclient.cpp:807-919 | at most one byte is received and it drives the handshake machine; a timeout drops the connection and receives nothing |
| Ring.CalcSizeExact | ext/easywsclient/SPSC.h:155-160 | on current and stale indices alike, in 32-bit arithmetic, the result is the exact number of bytes between them |
| Ring.AcceptedExact | ext/easywsclient/SPSC.h:109-123 | a write takes its length or the free bytes less two, whichever is smaller |
| Ring.CellMod | ext/easywsclient/SPSC.h:82-103 | byte j of a copy lies at its absolute position modulo the ring's size, on both branches |
| Ring.AdvanceIdx | ext/easywsclient/SPSC.h:126-150 | the index stored is the one that stands for the advanced count, with the ring's size standing for 0 |
| Ring.CopyOne | ext/easywsclient/SPSC.h:128-147 | copying one byte in disturbs no byte that is waiting to be read |
| Ring.ReadOne | ext/easywsclient/SPSC.h:84-101 | copying one byte out gets the byte that is next in the stream |
| Ring.StepKeeps | ext/easywsclient/SPSC.h:70-152 | every load, copy and store of either side keeps the invariant of the ring |
| Ring.FifoRefinement | ext/easywsclient/SPSC.h:70-152 | in every reachable state of every interleaving, what reads have returned followed by the bytes between the indices is what writes have taken, and occupancy is at most the size less two |
| Ring.RaceFreedom | ext/easywsclient/SPSC.h:82-150 | in every reachable state no cell is still to be copied by both sides, and no copy leaves the memory |
| Ring.Reservation | ext/easywsclient/SPSC.h:169-178 | a producer that saw capacity() above n has every byte of its next writes taken, up to n bytes in any number of calls, whatever the reader does meanwhile |
| Ring.LoneWrite | ext/easywsclient/SPSC.h:109-152 | from every reachable state a write with the reader at rest is a run that ends, with as much taken as there was room for |
| Ring.WriteExactly | ext/easywsclient/SPSC.h:109-152 | in every run a write that has come to its end has taken, and reports, exactly as much as fits with two bytes left free, counted at some moment between its call and its end |
| Ring.ReadExactly | ext/easywsclient/SPSC.h:70-105 | in every run a read that has come to its end has returned exactly as many bytes as were waiting when it was called, or as it asked for if these are fewer |
| Ring.LoneRead | ext/easywsclient/SPSC.h:70-105 | from every reachable state a read with the writer at rest is a run that ends with exactly that many bytes |
| Ring.FullWriteExactly | ext/easywsclient/SPSC.h:113-123 | a write is taken in full if and only if it is empty or smaller than capacity() |
| Ring.LoneWritesShort | app/TestClient/TestSharedMemory.cpp:67-71 | from every reachable state there is a run without a read in which two writes of as many bytes as capacity() gave leave the last byte out |
| Ring.GuardOneShort | app/TestClient/TestSharedMemory.cpp:67-71 | from every reachable state, two writes behind a guard with "at least" are both complete in every run, whatever is read meanwhile, if and only if the guard holds strictly |
| Spsc.ReadSplits | ext/easywsclient/SPSC.h:82-103 | a read of n bytes returns the first n bytes between the indices and leaves the others between them, also across the top |
| Spsc.WriteJoins | ext/easywsclient/SPSC.h:126-150 | a write puts its bytes behind those between the indices and changes none of these, also across the top |
| Spsc.SPSC.Init | ext/easywsclient/SPSC.h:33-68 | a server starts an empty ring; a client joins one of the same version and size and changes nothing |
| Spsc.SPSC.Size | ext/easywsclient/SPSC.h:162-167 | the number of bytes between the indices |
| Spsc.SPSC.GetCapacity | ext/easywsclient/SPSC.h:169-178 | the free bytes less one, or 0 |
| Spsc.SPSC.Read | ext/easywsclient/SPSC.h:70-105 | hands out the oldest bytes, as many as there are or as asked for, and removes exactly these; a writer reads nothing |
| Spsc.SPSC.Write | ext/easywsclient/SPSC.h:109-152 | appends the part of the data that is accepted and returns its length; a reader writes nothing |
| Spsc.SPSC.IncrementSequenceNumber | ext/easywsclient/SPSC.h:180-188 | returns the number as it was; it goes up by one in 32 bits and nothing else changes |
| SharedSocket.WsocketSharedMemory.constructor | ext/easywsclient/socketsharedmemory.cpp:19-45 | each side writes the file the other reads; a server empties both rings; a client joins the files that match in version and size, keeps what they hold and raises the sequence number the server looks at, and has no ring for one that does not match |
| SharedSocket.WsocketSharedMemory.PollServer | ext/easywsclient/socketsharedmemory.cpp:62-80 | a server reports a connection once, when the sequence number, 0 without a ring, has changed |
| SharedSocket.WsocketSharedMemory.Receive | ext/easywsclient/socketsharedmemory.cpp:97-108 | a count above 0 with that many bytes taken off the reading ring in order, or -1 and no change; never a result on which poll gives the connection up |
| SharedSocket.WsocketSharedMemory.Send | ext/easywsclient/socketsharedmemory.cpp:111-122 | a count above 0 with that many bytes appended to the writing ring, or -1 and no change; never a result on which poll gives the connection up |
| SharedSocket.Exchange | ext/easywsclient/socketsharedmemory.cpp:97-122 | what one side sends into an empty ring, up to its size less two, the other side receives |
| Session.HearMachine | ext/easywsclient/easywsclient.cpp:818-918 | a byte of the right text takes the handshake machine on; it never drops the connection |
| Session.SaidStep | ext/easywsclient/easywsclient.cpp:793-800 | a line of the handshake is taken whole by the ring, whatever the reader does, as the text leaves two bytes of it free |
| Session.SentStep | ext/easywsclient/easywsclient.cpp:312-332 | a step of a send keeps the ring's stream to the handshake text followed by the bytes of frames accepted |
| Session.ReadStepKeeps | ext/easywsclient/socketsharedmemory.cpp:97-108 | a step of a receive keeps what came out of the ring to the handshake text followed by the bytes of frames that arrived |
| Session.MoveKeeps | ext/easywsclient/socketsharedmemory.cpp:97-122 | every move of a side in the order of poll, down to single ring steps, in the handshake and after it, keeps the invariant, also with sends and closes by a callback |
| Session.StepKeeps | ext/easywsclient/socketsharedmemory.cpp:97-122 | the same of both sides together: each side's moves leave the other side's part of the rings alone |
| Session.ConnectingInv | ext/easywsclient/easywsclient.cpp:170-196 | a client that has yet to send its request and a server that has yet to read it, over empty rings, meet the invariant |
| Session.SourceAgreeable | ext/easywsclient/easywsclient.cpp:848-859 | the request line and the answer in the code meet what ConnectingInv and Delivery ask, in a ring of the shared socket's size, with any headers that fit |
| EndToEnd.DecodePrefix | ext/easywsclient/easywsclient.cpp:348-489 | whole frames at the head of an encoded queue are read as exactly the first frames of that queue |
| EndToEnd.MessagesRead | ext/easywsclient/easywsclient.cpp:418-458 | frames read back carry the messages that were queued |
| EndToEnd.RunAsksA | ext/easywsclient/easywsclient.cpp:491-536 | the messages queued over a run are those asked to be sent before the connection was ending; PINGs, PONGs and close frames add none |
| EndToEnd.RunAsksB | ext/easywsclient/easywsclient.cpp:491-536 | the same of the other side |
| EndToEnd.OpenFlow | ext/easywsclient/easywsclient.cpp:807-919 | a side that is open has read the other's handshake text and not a byte more of it as frames: what it received since is what the other's frames put into the ring |
| EndToEnd.DirectionDelivers | ext/easywsclient/easywsclient.cpp:280-345 | in every state that meets the invariant, connecting or open, messages delivered are an initial part of those queued at the other end, and all of them once everything is drained |
| EndToEnd.DeliveryFrom | ext/easywsclient/easywsclient.cpp:280-489 | from any state that meets the invariant, with frames anywhere on their way, in every run each side has delivered an initial part of what the other had queued and was asked to send since, and all of it once drained |
| EndToEnd.Delivery | ext/easywsclient/easywsclient.cpp:170-489 | in every run over shared memory from the first byte of the handshake on, from any interleaving of handshake, sends, closes, dispatches and ring steps, neither side drops the connection, and each has delivered, in order and with their kinds, an initial part of the messages the other was asked to send, and all of them once transmit buffer, ring and receive buffer are drained |
| EndToEnd.CloseMisreads | ext/easywsclient/easywsclient.cpp:359-476 | a client that closes when one byte of the answer is unheard takes it for the start of a PONG and delivers a message that was never sent |
| Progress.OwnGoes | ext/easywsclient/easywsclient.cpp:247-346 | whatever poll does next, in the order of the source, less is left to do for both sides, or nothing has changed but the place in poll and the side is nearer to its next useful step, a stale view of the ring's indices included |
| Progress.TakeEffect | ext/easywsclient/easywsclient.cpp:418-476 | a frame taken is a PING or only shortens the receive buffer, and no PING is queued in turn |
| Progress.BothOpen | ext/easywsclient/easywsclient.cpp:807-919 | two sides with nothing useful left to do are both open: there is no deadlock in the handshake |
| Progress.RestDone | ext/easywsclient/easywsclient.cpp:280-345 | nor after it: with nothing useful left to do everything queued for a side that can read has been delivered |
| Progress.ReceiverEnds | ext/easywsclient/easywsclient.cpp:477-487 | a side that ends its connection in a dispatch has delivered everything queued for it |
| Progress.Inevitable | ext/easywsclient/easywsclient.cpp:247-346 | from every state that meets the invariant, under every schedule in which both sides go on polling, both connections come to be made and everything queued for a side whose connection is not ending comes to be delivered, and stays so |
| Progress.DeliveryReached | ext/easywsclient/easywsclient.cpp:170-489 | after every run from the first byte of the handshake on, under every schedule in which both sides then go on polling, a side whose connection is not ending comes to have delivered exactly the messages the other was asked to send, be the other open, closing or closed |
| Progress.FairRunExists | ext/easywsclient/easywsclient.cpp:247-346 | from every state there is such a schedule with the states it leads through |
| Closing.DeliveredExactly | ext/easywsclient/easywsclient.cpp:418-458 | a side has delivered all messages queued for it if and only if the bytes it has taken reach the end of the last data frame |
| Closing.ArrivedExactly | ext/easywsclient/easywsclient.cpp:348-489 | after a dispatch, if and only if the bytes that have arrived do |
| Closing.ClosesNext | ext/easywsclient/easywsclient.cpp:337-341 | a closing side whose send loop has emptied the transmit buffer has no other move than to close its connection |
| Closing.ClosedReadsNoMore | ext/easywsclient/easywsclient.cpp:266-273 | once a connection is closed, in every run nothing more arrives |
| Closing.ClosingExactly | ext/easywsclient/easywsclient.cpp:337-345 | in every run from the moment the send loop of a closing side is over: when its poll is over the connection is closed, and it has delivered all the other side has queued by then if and only if the last data frame of it had arrived at that moment |
| Closing.CloseAnswered | ext/easywsclient/easywsclient.cpp:477-487 | once all a side has queued has been accepted and has arrived, its close last, the end of the other side's dispatch ends that connection |
| Closing.CloseReached | ext/easywsclient/easywsclient.cpp:247-346 | from every state with one side closing, under every schedule in which both sides go on polling, the other side comes to be ending too, and stays so |
| Closing.LostText | ext/easywsclient/easywsclient.cpp:337-345 | a text the other side sends at that moment is not delivered in any run |
| Closing.CloseLosesText | ext/easywsclient/easywsclient.cpp:266-345 | from every state with both sides open and at rest there is a run to such a text: one side closes and polls, the other sends |

## Left out

- WebSocket.WebSocketImpl.SendData: says exactly when `addBuffer` takes the frame but nothing about the transmit buffer when it refuses. The source ignores the result (lines 682 and 685) and masks the last bytes of whatever is there, which may lie outside the buffer; here the method returns false and its caller stops. `AppendFrame` stops in the same way.
- WebSocket.WebSocketImpl.DispatchBinary: stops after the first append that a buffer refuses, as `Poll` does, where the source goes on.
- WebSocket.WebSocketImpl.DispatchOne: stops at a frame whose length and header reach 2^32, where the source truncates the length to 32 bits (line 410).
- WebSocket.WebSocketImpl.Poll: does not model a callback that calls back into the same connection (`Session` has those that send or close, but none that polls), nor the time spent in `nullSelect`.
- SimpleBuffer.Buffer.AddBuffer: asks for twice the buffer size plus the request to be below 2^32, and so do the methods that grow a buffer; beyond that the source's 32-bit sizes wrap around. The connection's own buffers stay far below for the requests a frame can make.
- Connector.Connector.SocketSendString: does not follow up a line the socket takes only in part, as the source does not. `Session` has each text two bytes smaller than its ring, and no line is then taken in part.
- Session.ConnectingInv: leaves out a timeout, a request that does not fit into the ring, and a call of `close` on a connection still being made (see `EndToEnd.CloseMisreads`); so do `Session.MoveKeeps`, `Session.StepKeeps`, `EndToEnd.DeliveryFrom` and `EndToEnd.Delivery`.
- Progress.DeliveryReached: is about two sides of which nothing but `poll` is called any more, each time with a callback, and whose buffers never refuse.
- Handshake.ClientReads: the status number is unbounded, so a number that overflows the C library's conversion is read as itself.
- `sendBinary` with a null pointer and a length other than 0: the source then masks bytes it has not appended; a payload here is a sequence and cannot be null.
- Weak memory: reorderings that `memory_order_relaxed` permits are not modelled.
- `fastXOR` on a big-endian machine: it is the byte form.
- `shrinkBuffer`, which nothing calls, and `reset` of a buffer.
- Sockets of the operating system, socket playback, memory-mapped files, clocks and formatted output: libraries and system calls.
- Parsing of the URL and the checks of its length in the client's constructor: they rest on `sscanf`.
- Conformance of the handshake to section 4 of RFC 6455: the lines and the accept key are fixed text in the source.
- The proxy server, compiled out, and logging.
- The destructors, and the command-line programs.
- `select`, `nullSelect` and `disableNaglesAlgorithm`, which do nothing over shared memory.
- `WsocketSharedMemory` when its files cannot be mapped.
