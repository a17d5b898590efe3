# Bluetooth HCI transport of the unionpi_tiger board: verified model

This project models the host side of the Bluetooth UART transport of the unionpi_tiger board and
proves properties of it. Check it with `dafny verify dfyconfig.toml`.

What is modelled:

- **The H5 (three-wire UART) transport** of `hci_h5.c`, which implements Core Specification Vol 4
  Part D: byte stuffing (section 3), packet header (section 4), integrity check (section 5), reliable
  packets (section 6) and link establishment (section 8).
  `Crc`, `Slip` and `Frames` give the formats and an independent parser of whole frames; `Transport`
  the sender and `H5Model` a whole endpoint as values. `H5Sender.Sender`, `H5Decoder.Decoder` and
  `H5.Endpoint` are the same as objects, with heap queues and byte buffers, every method proved to do
  to the abstract value what the functions say. `H5Receiver` proves the frame round trip and
  self-synchronisation, `H5Link` link establishment over all runs, `H5Answers` and `H5Delivery` what
  an endpoint sends and what it hands to its stack, in bytes, and `H5Stall` when a packet is left
  waiting that could be sent. `GoBackN` proves reliable delivery between two transports over lossy
  channels, `GoBackNProgress` and `GoBackNStandstill` when delivery can still be completed and when it
  no longer can, the latter in one endpoint in `H5Standstill`; `H5Refinement` shows that every input of
  an endpoint is moves of that protocol, `H5System` puts two whole endpoints together, and
  `H5EndToEnd` says what their stacks receive.
- **The structures under it**, `bt_list.c` and `bt_skbuff.c`: the intrusive circular list and the
  queue on it (`RtkQueues`), on the heap with a ghost sequence, and the byte buffer (`RtkBuffers`).
- **The HCI stream reassembler** of `userial_vendor.c` (`HciStream`, `Reassembler`), which rewrites a
  flow-control byte in flight, and the **coexistence queues** (`Coex`).
- **The firmware download** of `hardware_uart.c`: merging settings into the configuration image in
  place (`ConfigImage`, `ConfigUpdate`), the image and its transfer in fragments (`FirmwareDownload`).

What the proofs turned up:

- An acknowledgement that opens the window sends nothing by itself: `h5_wake_up` is called before the
  acknowledged packets are removed, and only for reliable packets. `H5Stall.WhatIsLeft` says exactly
  when a packet that could be sent is left waiting, and `H5Stall.StallReached` gives a run that gets
  there with nothing outstanding, so that no timer resends and the packet waits for the next one.
- A config response to a restarted link may lower the window below what is outstanding. That can end
  delivery for good: a timeout lets out fewer packets than the peer already has, and its
  acknowledgements are taken for invalid. `GoBackNStandstill.FinishExactly` gives the exact condition
  in every state, `H5Standstill.StandstillReached` a run of an endpoint that gets there, and
  `H5Standstill.StaysStuck` what it does from then on.
- The stream reassembler pokes the byte it rewrites as soon as an event header is complete, without
  looking at the parameter length. After a Command Complete without parameters, or a Command Status
  with fewer than two, it overwrites a byte of the next packet if that is in the same read.
  `Reassembler.ProcessExact` gives the exact condition for one read, `Reassembler.ReadsDoNotMatter` for
  all splits of a stream, and `Reassembler.LongEnoughExact` the events that are safe in every stream.
- With producers that overlap between their two pushes the coexistence thread can exchange the two
  directions (`Coex.OverlapReorders`), though each stays in order. It does so exactly when the tokens
  are pushed in another order than the data (`Coex.OrderIsTokenOrder`).
- A controller that answers the last firmware fragment without the top bit makes the code send
  another fragment from beyond the image (`FirmwareDownload.Download.Exchange`, outcome `Overread`).
- The comment above `h5_recv` promises a count; the code returns whether a packet was completed
  (`H5.Endpoint.RecvChunk`, `H5Receiver.ResultIsVerdict`).

Modelling conventions: bytes are integers below 256, masks and shifts are `%` and `/`, exclusive or is
defined bit by bit; three-bit and eight-bit counters wrap explicitly. Each region under a mutex is one
atomic step, and timeouts, reads and packets from the stack are inputs that may come in any order.
Assertions on impossible packet types are taken as compiled out, so such bytes are skipped.

## Model

| member | source | states |
|---|---|---|
| Crc.TableFormIsBitSerial | unionpi_tiger/hardware/bt/src/hci_h5.c:372-532 | The two-nibble table form of the check equals a bit-by-bit reflected CCITT shift register, for every register and message. |
| Crc.TableIsShift | unionpi_tiger/hardware/bt/src/hci_h5.c:372-376 | Every entry of the table is four clocks of the register on its index. |
| Crc.UpdateIsShift | unionpi_tiger/hardware/bt/src/hci_h5.c:523-532 | One table update is eight clocks of the register after the byte is added. |
| Crc.UpdateInjectiveInRegister | unionpi_tiger/hardware/bt/src/hci_h5.c:523-532 | For a fixed byte, different registers stay different. |
| Crc.UpdateInjectiveInByte | unionpi_tiger/hardware/bt/src/hci_h5.c:523-532 | For a fixed register, different bytes give different registers. |
| Crc.OneByteChangesCheck | unionpi_tiger/hardware/bt/src/hci_h5.c:523-532 | Changing any one byte of a message changes the register it ends in. |
| Crc.TableReverses | unionpi_tiger/hardware/bt/src/hci_h5.c:294-315 | Each of the 256 entries of the table is its index with the bits reversed. |
| Crc.BitRev16IsBitRev | unionpi_tiger/hardware/bt/src/hci_h5.c:360-370 | Reversing two bytes by themselves and swapping them reverses all sixteen bits. |
| Crc.OneByteChangesSentCheck | unionpi_tiger/hardware/bt/src/hci_h5.c:360-532 | Changing any one byte of a message changes the check that is sent. |
| Crc.KnownCheck | unionpi_tiger/hardware/bt/src/hci_h5.c:360-532 | A check value in numbers: that of a single zero byte is 0xe1f0. |
| H5Sender.CrcUpdate | unionpi_tiger/hardware/bt/src/hci_h5.c:523-532 | The imperative update computes the specified one. |
| Slip.SlipShape | unionpi_tiger/hardware/bt/src/hci_h5.c:568-619 | No delimiter survives stuffing, nor XON or XOFF under flow control, and the length at most doubles. |
| Slip.SlipConcat | unionpi_tiger/hardware/bt/src/hci_h5.c:577-619 | Stuffing works byte by byte: it distributes over concatenation. |
| Slip.KnownEscapes | unionpi_tiger/hardware/bt/src/hci_h5.c:577-619 | The bytes that are escaped and their escapes, in numbers; the flow-control bytes only under flow control. |
| H5Sender.SlipOneByte | unionpi_tiger/hardware/bt/src/hci_h5.c:577-619 | The escapes written into the buffer are those of the SLIP layer, two of them only under flow control. |
| H5Sender.PutDelimiter | unionpi_tiger/hardware/bt/src/hci_h5.c:557-566 | One delimiter is appended. |
| Frames.HeaderFields | unionpi_tiger/hardware/bt/src/hci_h5.c:741-768 | Every header field is read back as packed, and the checksum of a packed header is right. |
| Frames.HeaderLayout | unionpi_tiger/hardware/bt/src/hci_h5.c:741-768 | Where each header field lies, and that the four bytes add up to 255 modulo 256. |
| Frames.TypesByNumber | unionpi_tiger/hardware/bt/src/hci_h5.c:710-763 | Which packet types, in numbers, are reliable and which are not. |
| Frames.EncodeShape | unionpi_tiger/hardware/bt/src/hci_h5.c:734-802 | An encoded frame has exactly two delimiters, first and last, no flow-control byte when those are escaped, and fits the buffer allocated for it. |
| Frames.KnownFrame | unionpi_tiger/hardware/bt/src/hci_h5.c:734-803 | The whole frame of a sync request, byte for byte. |
| Frames.ParsePlain | unionpi_tiger/hardware/bt/src/hci_h5.c:741-798 | An independent whole-string parser reads back the header and payload of every frame. |
| Frames.ChecksumCatches | unionpi_tiger/hardware/bt/src/hci_h5.c:1370-1382 | A one-byte change to a header is caught by its checksum. |
| Frames.CheckCatches | unionpi_tiger/hardware/bt/src/hci_h5.c:1417-1419 | A one-byte change to the checked bytes or to the check itself is caught by the check. |
| Frames.OneByteErrorDetected | unionpi_tiger/hardware/bt/src/hci_h5.c:1358-1430 | A frame with a check is malformed after any one-byte change. |
| Frames.RunningStep | unionpi_tiger/hardware/bt/src/hci_h5.c:632-682 | The check kept up as bytes arrive is the check of what has arrived. |
| H5Sender.EncodeFrame | unionpi_tiger/hardware/bt/src/hci_h5.c:734-803 | The buffer built byte by byte is the encoding of the frame; nothing outgrows it. |
| H5Sender.PutCheck | unionpi_tiger/hardware/bt/src/hci_h5.c:788-793 | The two bytes after header and payload are the bit-reversed check, high byte first. |
| RtkBuffers.RtkBuffer.constructor | unionpi_tiger/hardware/bt/src/bt_skbuff.c:100-131 | An empty buffer with the room asked for and a headroom of 12 unless another is asked for. |
| RtkBuffers.RtkBuffer.AddHead | unionpi_tiger/hardware/bt/src/bt_skbuff.c:155-169 | Grows the content at the front, exactly when the headroom suffices; otherwise nothing changes. |
| RtkBuffers.RtkBuffer.RemoveHead | unionpi_tiger/hardware/bt/src/bt_skbuff.c:172-186 | Drops the front into the headroom, exactly when there is enough content. |
| RtkBuffers.RtkBuffer.AddTail | unionpi_tiger/hardware/bt/src/bt_skbuff.c:190-199 | Grows the content at the back, exactly when the tail room suffices; otherwise nothing changes. |
| RtkBuffers.RtkBuffer.RemoveTail | unionpi_tiger/hardware/bt/src/bt_skbuff.c:201-211 | Drops the end of the content, exactly when there is enough. |
| RtkQueues.RingInsert | unionpi_tiger/hardware/bt/src/bt_list.c:66-93 | Where the entries of a ring are after one is inserted. |
| RtkQueues.ListAdd | unionpi_tiger/hardware/bt/src/bt_list.c:66-72 | An entry is linked between its two neighbours, in both directions. |
| RtkQueues.ListDeleteNode | unionpi_tiger/hardware/bt/src/bt_list.c:117-124 | Its neighbours are linked to each other, and the entry to itself, also when it was linked to itself before. |
| RtkQueues.RtkQueue.Insert | unionpi_tiger/hardware/bt/src/bt_list.c:66-93 | Insertion anywhere keeps the nodes a circular doubly linked ring whose length is the counter. |
| RtkQueues.RtkQueue.QueueTail | unionpi_tiger/hardware/bt/src/bt_skbuff.c:256-263 | Pushes at the end. |
| RtkQueues.RtkQueue.QueueHead | unionpi_tiger/hardware/bt/src/bt_skbuff.c:269-276 | Pushes at the front. |
| RtkQueues.RtkQueue.InsertBefore | unionpi_tiger/hardware/bt/src/bt_skbuff.c:283-289 | Inserts just before the given entry. |
| RtkQueues.RtkQueue.RemoveNode | unionpi_tiger/hardware/bt/src/bt_skbuff.c:335-342 | Removes exactly the given entry. |
| RtkQueues.RtkQueue.DequeueHead | unionpi_tiger/hardware/bt/src/bt_skbuff.c:388-404 | Removes and returns the first entry, or null when there is none. |
| RtkQueues.RtkQueue.DequeueTail | unionpi_tiger/hardware/bt/src/bt_skbuff.c:367-383 | Removes and returns the last entry, or null when there is none. |
| RtkQueues.RtkQueue.TopQueue | unionpi_tiger/hardware/bt/src/bt_skbuff.c:346-362 | The first entry, which stays. |
| RtkQueues.RtkQueue.NodeIsLast | unionpi_tiger/hardware/bt/src/bt_skbuff.c:294-310 | Tells whether an entry is the last. |
| RtkQueues.RtkQueue.NextNode | unionpi_tiger/hardware/bt/src/bt_skbuff.c:315-331 | The entry after one, or null after the last. |
| RtkQueues.RtkQueue.EmptyQueue | unionpi_tiger/hardware/bt/src/bt_skbuff.c:417-430 | Drains the queue. |
| RtkQueues.RtkQueue.RemovePrefix | unionpi_tiger/hardware/bt/src/hci_h5.c:838-851 | The safe iteration that unlinks as it goes removes exactly the first so many entries. |
| Transport.WakeUpIsDrained | unionpi_tiger/hardware/bt/src/hci_h5.c:954-1058 | A wake-up in closed form: all unreliable packets, then as many reliable ones as the window admits, numbered consecutively, then a bare acknowledgement only if one is still owed; afterwards nothing more may be sent. |
| Transport.DequeueKeeps | unionpi_tiger/hardware/bt/src/hci_h5.c:954-994 | Every send keeps the sender invariant (at most seven outstanding) and uses something up. |
| Transport.BurstAt | unionpi_tiger/hardware/bt/src/hci_h5.c:758-763 | The i-th reliable packet of a wake-up carries the number txseq + i modulo 8. |
| Transport.BurstCarries | unionpi_tiger/hardware/bt/src/hci_h5.c:954-994 | Frames carry the queued packets in order, with type and payload. |
| Transport.WakeUpAnswers | unionpi_tiger/hardware/bt/src/hci_h5.c:1024-1058 | When an acknowledgement is owed a wake-up sends at least one frame, all of them carry it, none is owed afterwards, and it is a bare acknowledgement if nothing else may be sent. |
| Transport.RewindResends | unionpi_tiger/hardware/bt/src/hci_h5.c:1539-1560 | After a timeout, behind the waiting unreliable packets, as many of the outstanding and then of the waiting packets as the window admits are sent in order, the outstanding ones under their old numbers. |
| H5Sender.RewindRound | unionpi_tiger/hardware/bt/src/hci_h5.c:1541-1556 | One round of the rewind loop gets closer to the whole rewind. |
| H5Sender.Sender.constructor | unionpi_tiger/hardware/bt/src/hci_h5.c:1640-1681 | Empty queues, both counters zero, window zero. |
| H5Sender.Sender.PreparePkt | unionpi_tiger/hardware/bt/src/hci_h5.c:710-804 | The buffer is the encoding of the packet under the current numbers; the counters move, and no acknowledgement is owed any more. |
| H5Sender.Sender.DequeuePkt | unionpi_tiger/hardware/bt/src/hci_h5.c:954-994 | The heap queues do what the specified choice of the next packet does. |
| H5Sender.Sender.WakeUpTx | unionpi_tiger/hardware/bt/src/hci_h5.c:1024-1058 | The loop stops and sends what the specified wake-up sends. |
| H5Sender.Sender.EnqueuePkt | unionpi_tiger/hardware/bt/src/hci_h5.c:996-1022 | ACL and command packets queue as reliable, control, acknowledgement, vendor and SCO packets as unreliable; overlong and other packets are dropped. |
| H5Sender.Sender.CountAcked | unionpi_tiger/hardware/bt/src/hci_h5.c:822-832 | The walk back through the sequence numbers, in closed form: with d = txseq - ack modulo 8, all but d, or none if there are no more than d. |
| H5Sender.Sender.RemoveAckedPkt | unionpi_tiger/hardware/bt/src/hci_h5.c:810-863 | Exactly that many packets leave the front of the unacknowledged queue. |
| H5Sender.Sender.RewindTx | unionpi_tiger/hardware/bt/src/hci_h5.c:1541-1556 | All outstanding packets go back to the front of the reliable queue, in order, and the sequence number with them. |
| H5Sender.Sender.Retransmit | unionpi_tiger/hardware/bt/src/hci_h5.c:1539-1560 | The rewind and the wake-up after it. |
| H5Sender.Sender.Submit | unionpi_tiger/hardware/bt/src/hci_h5.c:865-935 | A packet is queued and everything that may be sent is. |
| GoBackN.ReliableDelivery | unionpi_tiger/hardware/bt/src/hci_h5.c:810-1058 | In every run of two endpoints over lossy first-in first-out channels, what one accepts is a prefix of what the other queued, each packet once and in order, although the wire carries three-bit numbers. |
| GoBackN.NothingForgotten | unionpi_tiger/hardware/bt/src/hci_h5.c:810-1058 | In every run, acknowledged, outstanding and waiting packets together are those queued; a packet leaves the unacknowledged queue only after the peer accepted it; at most seven are outstanding. |
| GoBackN.NumbersNeverChange | unionpi_tiger/hardware/bt/src/hci_h5.c:758-763 | In every run a packet is sent under one number only, its position modulo 8, through any number of timeouts. |
| GoBackN.AckMeansPosition | unionpi_tiger/hardware/bt/src/hci_h5.c:822-851 | A three-bit acknowledgement, even one that arrives after a rewind, removes exactly the packets below the position it stands for, or none. |
| GoBackN.NumberMeansPosition | unionpi_tiger/hardware/bt/src/hci_h5.c:1390-1400 | Of the frames that can be under way only the expected packet has the expected number. |
| GoBackN.SendNumbers | unionpi_tiger/hardware/bt/src/hci_h5.c:954-994 | A reliable frame carries the packet after everything outstanding, numbered by its position. |
| GoBackN.StepKeeps | unionpi_tiger/hardware/bt/src/hci_h5.c:810-1560 | Every move of either side keeps the invariant of both directions. |
| GoBackN.RunKeeps | unionpi_tiger/hardware/bt/src/hci_h5.c:810-1560 | The invariant is kept by every run, from any state that has it. |
| GoBackN.SettingsKeep | unionpi_tiger/hardware/bt/src/hci_h5.c:1094-1112 | New settings, in the middle of a run, keep the invariant. |
| GoBackN.AmendKeeps | unionpi_tiger/hardware/bt/src/hci_h5.c:1060-1132 | What an unreliable frame says, such as the settings in a config response, does not touch the invariant. |
| GoBackNProgress.Progress | unionpi_tiger/hardware/bt/src/hci_h5.c:810-1560 | From every state the invariant allows, whatever was lost, some continuation delivers and acknowledges everything queued, if the window covers what the peer has beyond the last acknowledgement. |
| GoBackNProgress.RunsCanFinish | unionpi_tiger/hardware/bt/src/hci_h5.c:810-1560 | So it can after any run in which the window was never larger than it is at the end. |
| GoBackNStandstill.SettledExactly | unionpi_tiger/hardware/bt/src/hci_h5.c:810-1560 | When nothing under way is news to the peer or to the sender, the queue can be delivered at all if and only if it has been, or the window is open and covers what the peer has beyond the last acknowledgement. |
| GoBackNStandstill.AheadLess | unionpi_tiger/hardware/bt/src/hci_h5.c:1358-1430 | A lost frame never gets the peer further. |
| GoBackNStandstill.GoesAstray | unionpi_tiger/hardware/bt/src/hci_h5.c:822-1560 | Whenever the peer may get beyond what the window covers, some losses and a timeout lead to a state from which nothing more is accepted. |
| GoBackNStandstill.FinishExactly | unionpi_tiger/hardware/bt/src/hci_h5.c:810-1560 | In every state the invariant allows: whatever is lost, delayed or timed out from there on, the queue can still be delivered, if and only if it has been, or the window is open and the peer cannot get beyond what it covers with the frames under way, or has only one packet left then. |
| GoBackNStandstill.RestWithoutEnd | unionpi_tiger/hardware/bt/src/hci_h5.c:822-851 | A run after which it cannot: settings lower the window below what is outstanding, an acknowledgement is lost, and nothing more is accepted whatever follows, because every later acknowledgement is beyond what a timeout lets out. |
| H5Refinement.WakeUpIsMoves | unionpi_tiger/hardware/bt/src/hci_h5.c:1024-1058 | A wake-up is a run of single sends, and logs the frames they put into the channel. |
| H5Refinement.InputIsMoves | unionpi_tiger/hardware/bt/src/hci_h5.c:1529-2036 | A packet from the stack is a queueing move and sends; a retransmission timeout is a timeout move and sends; a sync or config timeout queues its request; each leaves the transport the endpoint has. |
| H5Refinement.ControlIsMoves | unionpi_tiger/hardware/bt/src/hci_h5.c:1060-1132 | A link control packet in any state of the link - request, response, or restarted peer - is queueing moves and sends, or the change of settings. |
| H5Refinement.FrameIsMoves | unionpi_tiger/hardware/bt/src/hci_h5.c:1211-1334 | A completed or refused frame of any type, link control included, is a receiving move, sends, the processing of its acknowledgement, and what a control packet causes. |
| H5Refinement.ReceivingIsMoves | unionpi_tiger/hardware/bt/src/hci_h5.c:1211-1472 | The bytes of the frame at the head of the channel, in whatever reads and in any state of the link, change the transport as a run of the two-endpoint protocol does. |
| H5System.RunIsMoves | unionpi_tiger/hardware/bt/src/hci_h5.c:810-2036 | Two endpoints from initialisation on, joined by wires of encoded frames that lose and damage: every run, byte by byte, with link establishment, restarts and new settings, has a run of the two-endpoint protocol behind it with the same transports. |
| H5System.EndToEnd | unionpi_tiger/hardware/bt/src/hci_h5.c:810-2036 | In every such run the reliable packets one endpoint accepted are a prefix of those the stack of the other handed over, each once and in order. |
| H5EndToEnd.StacksReceive | unionpi_tiger/hardware/bt/src/hci_h5.c:810-2036 | From stack to stack, in every run and both directions: the commands and ACL packets in the queue to one stack are a prefix of those the other stack handed over, each once, unchanged and in order, and what has not got there is outstanding or waiting, in order. |
| H5EndToEnd.QueuedIsHandedOver | unionpi_tiger/hardware/bt/src/hci_h5.c:865-1022 | What the protocol takes in is what the stacks handed over: their commands and ACL packets of at most 4095 bytes. |
| H5System.NothingLost | unionpi_tiger/hardware/bt/src/hci_h5.c:810-2036 | In every such run and both directions, what a stack handed over is some packets accepted by the other side, then exactly what is outstanding and waiting, in order; at most seven are outstanding. |
| H5System.ItemVerdict | unionpi_tiger/hardware/bt/src/hci_h5.c:1358-1430 | A frame that arrives, intact or damaged in a way that checksum, length or check detects, means to the receiver what it meant when it left, or nothing. |
| H5System.OneByteDetectable | unionpi_tiger/hardware/bt/src/hci_h5.c:1358-1430 | Every change of one byte in a frame with a check is detected. |
| H5System.EarlyEvent | unionpi_tiger/hardware/bt/src/hci_h5.c:1358-1464 | Inside a frame no byte brings another verdict than that on the whole frame, and by the closing delimiter it has come. |
| H5Model.RxFits | unionpi_tiger/hardware/bt/src/hci_h5.c:1451-1460 | Bytes stored and bytes expected never exceed the 0x1005 allocated. |
| H5Model.UnslipOk | unionpi_tiger/hardware/bt/src/hci_h5.c:632-692 | Every byte keeps the bookkeeping of stored and expected bytes. |
| H5Receiver.RecvConcat | unionpi_tiger/hardware/bt/src/hci_h5.c:1349-1472 | A read is the same as its parts one after the other. |
| H5Receiver.ReadsDoNotMatter | unionpi_tiger/hardware/bt/src/hci_h5.c:1349-1472 | The split of the stream into reads does not matter. |
| H5Receiver.DelimiterSynchronises | unionpi_tiger/hardware/bt/src/hci_h5.c:1358-1450 | From every reachable state one delimiter leaves the receiver at the start of a packet. |
| H5Receiver.FrameFate | unionpi_tiger/hardware/bt/src/hci_h5.c:1349-1472 | Every stuffed string between delimiters has exactly the effect the independent whole-string parser says, once. |
| H5Receiver.ResultIsVerdict | unionpi_tiger/hardware/bt/src/hci_h5.c:1349-1472 | For a delimited string the returned flag says whether the whole-string parser takes it, or its opening delimiter ended a packet that was complete. |
| H5Receiver.FrameRoundTrip | unionpi_tiger/hardware/bt/src/hci_h5.c:577-1472 | Every frame the encoder writes, in whatever reads it arrives and whatever came before, is completed once with its own header and payload if its number is the expected one. |
| H5Receiver.OutOfOrderRefused | unionpi_tiger/hardware/bt/src/hci_h5.c:1390-1400 | A reliable frame with another number, in any state of the receiver, is refused once: nothing but the sender changes, at least one frame goes out, and all that go out acknowledge the expected number. |
| H5Receiver.CorruptFrameNotCompleted | unionpi_tiger/hardware/bt/src/hci_h5.c:1370-1427 | A frame with a check and one changed byte is never completed. |
| H5Receiver.GarbageIsForgotten | unionpi_tiger/hardware/bt/src/hci_h5.c:1358-1450 | After any garbage an intact frame is completed as on an idle line. |
| H5Decoder.Decoder.UnslipOneByte | unionpi_tiger/hardware/bt/src/hci_h5.c:632-692 | The object decodes a byte as specified; the byte always fits and the running check stays right. |
| H5Decoder.StoreTracks | unionpi_tiger/hardware/bt/src/hci_h5.c:632-682 | Storing a byte keeps the running check that of header and payload, whether or not the frame has one. |
| H5Decoder.Decoder.Begin | unionpi_tiger/hardware/bt/src/hci_h5.c:1451-1463 | A first byte allocates the buffer and expects four header bytes. |
| H5Decoder.Decoder.CompareCrc | unionpi_tiger/hardware/bt/src/hci_h5.c:543-549 | The comparison succeeds exactly when the received check is that of everything before it. |
| H5Decoder.Decoder.AdvanceHeader | unionpi_tiger/hardware/bt/src/hci_h5.c:1370-1407 | A complete header is dropped, refused or followed by its payload, as specified. |
| H5Decoder.Decoder.AdvancePayload | unionpi_tiger/hardware/bt/src/hci_h5.c:1408-1418 | A complete payload is followed by its check or hands the frame on. |
| H5Decoder.Decoder.AdvanceCrc | unionpi_tiger/hardware/bt/src/hci_h5.c:1420-1430 | A complete check hands the frame on without it, or drops the frame. |
| H5.Endpoint.constructor | unionpi_tiger/hardware/bt/src/hci_h5.c:1640-1681 | The initial endpoint. |
| H5.TransitionThenByte | unionpi_tiger/hardware/bt/src/hci_h5.c:1358-1464 | A transition that consumes nothing gets closer to consuming the byte, and changes neither what that will have done nor whether a packet will have been completed. |
| H5.Endpoint.RecvChunk | unionpi_tiger/hardware/bt/src/hci_h5.c:1349-1472 | The receive loop stops, does to the object what the bytes one after the other do to its abstract value, and returns whether a packet was completed. |
| H5.Endpoint.CompleteRxPkt | unionpi_tiger/hardware/bt/src/hci_h5.c:1211-1334 | A completed packet moves the expected number, is acknowledged, acknowledges, and is interpreted or passed up, in that order. |
| H5.Endpoint.ProcessCtlPkts | unionpi_tiger/hardware/bt/src/hci_h5.c:1060-1132 | A link control packet in each of the three states. |
| H5.Endpoint.ControlUninitialized | unionpi_tiger/hardware/bt/src/hci_h5.c:1071-1088 | In the first state: a sync request is answered, a sync response starts configuration. |
| H5.Endpoint.ControlInitialized | unionpi_tiger/hardware/bt/src/hci_h5.c:1089-1117 | In the second: requests are answered, a config response sets window, flow control and check and activates the link. |
| H5.Endpoint.ControlActive | unionpi_tiger/hardware/bt/src/hci_h5.c:1118-1131 | In the third: a sync request means the peer restarted; a config request is answered. |
| H5.Endpoint.DeliverPacket | unionpi_tiger/hardware/bt/src/hci_h5.c:1149-1202 | The reply to the baud rate command is kept back, everything else is queued for the stack. |
| H5.Endpoint.TakeAck | unionpi_tiger/hardware/bt/src/hci_h5.c:853-856 | An acknowledgement is processed, and the retransmission count starts again when nothing is outstanding. |
| H5.Endpoint.SyncRetransTimeout | unionpi_tiger/hardware/bt/src/hci_h5.c:1978-1995 | A sync request up to the limit, then a failure is reported. |
| H5.Endpoint.ConfRetransTimeout | unionpi_tiger/hardware/bt/src/hci_h5.c:1997-2016 | A config request up to the limit, then a failure is reported, as in `H5Answers.ConfTimerActs`. |
| H5.Endpoint.DataRetransTimeout | unionpi_tiger/hardware/bt/src/hci_h5.c:1529-1562 | A rewind and a wake-up up to the limit, then a hardware error. |
| H5.Endpoint.BaudrateReadyTimeout | unionpi_tiger/hardware/bt/src/hci_h5.c:2018-2036 | The reply kept back goes to the stack. |
| H5.Endpoint.SendPacket | unionpi_tiger/hardware/bt/src/hci_h5.c:1782-1868 | A packet from the stack is queued and everything that may be sent is. |
| H5Link.NextMoves | unionpi_tiger/hardware/bt/src/hci_h5.c:1060-1132 | Over any input the link goes only from uninitialised to initialised on a sync response, to active on a config response, and back on a peer restart, each completed by a byte; settings change only on activation. |
| H5Link.ControlMoves | unionpi_tiger/hardware/bt/src/hci_h5.c:1060-1132 | Which control packet causes which change of state. |
| H5Link.ControlAnswers | unionpi_tiger/hardware/bt/src/hci_h5.c:1060-1132 | Which frames each control packet puts on the wire: a request its response, but for a config request before synchronisation, which is ignored; a sync response a config request; a restarted peer also a sync request and an error report; anything else nothing. |
| H5Link.StackSees | unionpi_tiger/hardware/bt/src/hci_h5.c:1149-1334 | What the stack receives of a completed packet, by type in numbers: commands, ACL data, SCO data and events once and unchanged, except the intercepted reply, and of control packets only the success report of the one that activates the link, byte for byte. |
| H5Link.TimerFindsReply | unionpi_tiger/hardware/bt/src/hci_h5.c:1186-2035 | In every run the baud rate timer finds a reply to hand on if and only if one has been kept since it last fired. |
| H5Link.NoReliableBeforeActive | unionpi_tiger/hardware/bt/src/hci_h5.c:972-978 | In every run no reliable packet is sent before the link is first active. |
| H5Link.SettingsOnlyAfterActive | unionpi_tiger/hardware/bt/src/hci_h5.c:1094-1112 | In every run window, flow control and check keep their initial values until the link is first active. |
| H5Link.SyncTimerSends | unionpi_tiger/hardware/bt/src/hci_h5.c:1986-1993 | A timeout below the limit puts a sync request on the wire, one at the limit sends nothing. |
| H5Link.TimerSyncsCounted | unionpi_tiger/hardware/bt/src/hci_h5.c:1978-1995 | In every run at most 350 timer-driven sync requests are sent between two sync responses. |
| H5Answers.RefusalAnswers | unionpi_tiger/hardware/bt/src/hci_h5.c:1390-1400 | The same in full: no acknowledgement is owed afterwards, and exactly one bare acknowledgement goes out, and nothing else happens, if nothing else may be sent. |
| H5Answers.NumberedAnswers | unionpi_tiger/hardware/bt/src/hci_h5.c:1237-1246 | An expected reliable frame moves the expected number on by one modulo 8, and that number is acknowledged in the same way, before the acknowledgement in the frame is processed. |
| H5Answers.AcceptanceAnswers | unionpi_tiger/hardware/bt/src/hci_h5.c:1237-1295 | The same for the encoded frame as it arrives, in any state of the receiver, whatever its type; frames that a control packet has sent acknowledge the same number. |
| H5Answers.AckBookkeeping | unionpi_tiger/hardware/bt/src/hci_h5.c:810-863 | The acknowledgement of every completed packet is kept, and timeouts are counted from zero once nothing is outstanding. |
| H5Answers.SyncRequested | unionpi_tiger/hardware/bt/src/hci_h5.c:1060-1132 | What a sync request does in each state, in bytes: answered always; an active link falls back, asks to synchronise and reports an error. |
| H5Answers.SyncResponded | unionpi_tiger/hardware/bt/src/hci_h5.c:1071-1080 | What a sync response does in each state, in bytes. |
| H5Answers.ConfRequested | unionpi_tiger/hardware/bt/src/hci_h5.c:1086-1128 | What a config request does in each state, in bytes. |
| H5Answers.ConfResponded | unionpi_tiger/hardware/bt/src/hci_h5.c:1089-1112 | What a config response does in each state, in bytes, with every setting it takes from its third byte. |
| H5Answers.OthersIgnored | unionpi_tiger/hardware/bt/src/hci_h5.c:1060-1132 | No other control packet does anything. |
| H5Answers.UnreliableLeaves | unionpi_tiger/hardware/bt/src/hci_h5.c:996-1022 | An SCO, vendor, acknowledgement or control packet from the stack leaves at once behind those that waited, unreliably and unchanged. |
| H5Answers.ReliableJoins | unionpi_tiger/hardware/bt/src/hci_h5.c:996-1022 | A command or ACL packet joins the reliable packets at the end. |
| H5Answers.OthersDropped | unionpi_tiger/hardware/bt/src/hci_h5.c:996-1022 | An overlong packet, an event or a packet of an unknown type is dropped: only what waited anyway is sent. |
| H5Answers.SyncCommandAsks | unionpi_tiger/hardware/bt/src/hci_h5.c:1880-1899 | The sync command sends a sync request, in bytes, if and only if the link is in its first state. |
| H5Answers.SyncTimerActs | unionpi_tiger/hardware/bt/src/hci_h5.c:1978-1995 | Below 350 the sync timer repeats the request, in bytes, and counts; at the limit it reports a failure if and only if the link is in its first state. |
| H5Answers.ConfTimerActs | unionpi_tiger/hardware/bt/src/hci_h5.c:1997-2016 | Below 350 the config timer repeats the config request, in bytes, and counts; at the limit it reports a failure if and only if the link is not active. |
| H5Answers.TimerConfsCounted | unionpi_tiger/hardware/bt/src/hci_h5.c:1997-2016 | In every run at most 350 timer-driven config requests are sent between two activations. |
| H5Answers.DataTimerActs | unionpi_tiger/hardware/bt/src/hci_h5.c:1529-1562 | Below 40 timeouts, 200 during initialisation, the outstanding packets go out again as far as the window admits, under their old numbers, and the timeout is counted; at the limit only an error is reported. |
| H5Answers.TimeoutsCounted | unionpi_tiger/hardware/bt/src/hci_h5.c:1529-1562 | In every run at most 200 timeouts are counted, and at most 40 if none came during initialisation. |
| H5Delivery.FrameToStack | unionpi_tiger/hardware/bt/src/hci_h5.c:1149-1334 | What a completed packet brings to the stack, from its header and payload bytes alone; the reply kept back is a Command Complete for opcode 0xfc17, low byte first. |
| H5Delivery.InputToStack | unionpi_tiger/hardware/bt/src/hci_h5.c:1149-2036 | What every input brings: the reply kept back when its timer fires, a failure report with status 3 when a timer gives up, and what a completed packet does. |
| H5Delivery.StackGets | unionpi_tiger/hardware/bt/src/hci_h5.c:1149-2036 | In every run the queue to the stack is what the inputs brought, in order. |
| H5Delivery.AcceptedIsPassed | unionpi_tiger/hardware/bt/src/hci_h5.c:1211-1334 | In every run the commands, ACL packets and events accepted through the reliable service are, in order, those that entered the queue to the stack or were kept back. |
| H5Stall.WhatIsLeft | unionpi_tiger/hardware/bt/src/hci_h5.c:1211-1334 | When nothing could be sent before a packet was completed, something can be sent after it, and is not, if and only if reliable packets wait, the acknowledgement leaves fewer outstanding than the window admits, and the packet is not a control packet that is answered. |
| H5Stall.OnlyCompletionLeaves | unionpi_tiger/hardware/bt/src/hci_h5.c:1024-1334 | No other input leaves anything: no byte but the one that completes a packet, no packet from the stack, no timer. |
| H5Stall.AcknowledgementAloneSendsNothing | unionpi_tiger/hardware/bt/src/hci_h5.c:1237-1295 | A bare acknowledgement sends nothing, and leaves something exactly when it opens the window for a waiting packet. |
| H5Stall.StallReached | unionpi_tiger/hardware/bt/src/hci_h5.c:810-1334 | A run from initialisation to such a state, with nothing outstanding, so that no retransmission timer runs: window one, two packets, one acknowledgement. |
| H5Standstill.StandstillReached | unionpi_tiger/hardware/bt/src/hci_h5.c:810-1562 | A run of one endpoint from initialisation to such a state: three packets with a window of two, the link restarted with a window of one, and a timeout. |
| H5Standstill.StaysStuck | unionpi_tiger/hardware/bt/src/hci_h5.c:810-1868 | From there on, in every run in which the peer acknowledges what it has and sends no config response, no reliable packet is sent but those the window admits, and none is ever acknowledged. |
| HciStream.RunPackets | unionpi_tiger/hardware/bt/src/userial_vendor.c:1927-2060 | A stream of packets is taken apart into exactly those packets and forwarded unchanged but for Num_HCI_Command_Packets, which becomes 1. |
| HciStream.WholeByBytes | unionpi_tiger/hardware/bt/src/userial_vendor.c:1927-2060 | What a packet is, by its bytes alone: ACL with a 16-bit length, low byte first, SCO and event with an 8-bit one. |
| HciStream.GrantedByBytes | unionpi_tiger/hardware/bt/src/userial_vendor.c:1994-2013 | Which byte of which event is rewritten, in numbers. |
| HciStream.TypeByte | unionpi_tiger/hardware/bt/src/userial_vendor.c:1927-2060 | Which bytes open a packet, in numbers; all others are skipped. |
| HciStream.RunChangesOnlyCredits | unionpi_tiger/hardware/bt/src/userial_vendor.c:1994-2013 | A forwarded byte differs from the received one only at byte 2 of a Command Complete or byte 3 of a Command Status. |
| HciStream.RunConcat | unionpi_tiger/hardware/bt/src/userial_vendor.c:1927-2060 | A stream is the same as its parts one after the other. |
| Reassembler.ProcessExact | unionpi_tiger/hardware/bt/src/userial_vendor.c:1994-2013 | A read is handled as its bytes one after the other if and only if the byte poked ahead lies in no packet beyond the event, or is 1 already. |
| Reassembler.LongEnoughExact | unionpi_tiger/hardware/bt/src/userial_vendor.c:1994-2013 | An event can never be overrun if and only if it has at least one parameter byte (Command Complete) or two (Command Status). |
| Reassembler.ReadsDoNotMatter | unionpi_tiger/hardware/bt/src/userial_vendor.c:1927-2143 | However a stream is split into reads the packets and the forwarded bytes are the same, if and only if no byte poked ahead lies beyond its event and differs from 1. |
| Reassembler.SoundReads | unionpi_tiger/hardware/bt/src/userial_vendor.c:1927-2143 | In particular they are the same when every event has the parameters the rewriting needs. |
| Reassembler.CleanSplit | unionpi_tiger/hardware/bt/src/userial_vendor.c:1994-2013 | Both parts of a clean stream are clean, the second after the first. |
| Reassembler.CleanPartsNotWhole | unionpi_tiger/hardware/bt/src/userial_vendor.c:2001-2006 | The other direction fails: a stream that is not clean, of two clean parts. |
| Reassembler.ReadsMatterAfterShortEvent | unionpi_tiger/hardware/bt/src/userial_vendor.c:2001-2006 | An example of the other case: after a short event the next packet type is overwritten in one split and not in the other. |
| Reassembler.StreamParser.HandleRecvData | unionpi_tiger/hardware/bt/src/userial_vendor.c:1927-2060 | One call, with its in-place rewriting, is a step of the specified processing; it always consumes something. |
| Reassembler.StreamParser.ReceiveRead | unionpi_tiger/hardware/bt/src/userial_vendor.c:2111-2120 | The loop over one read, and the exact condition under which it is the byte-by-byte meaning. |
| Reassembler.StreamParser.PokeCredit | unionpi_tiger/hardware/bt/src/userial_vendor.c:1994-2013 | The rewriting changes that one byte of the read and no other. |
| Coex.TokensFindData | unionpi_tiger/hardware/bt/src/userial_vendor.c:721-1008 | However producers interleave, tokens never outnumber data, every token taken finds its data, and each direction is processed in order. |
| Coex.QuietMeansHandled | unionpi_tiger/hardware/bt/src/userial_vendor.c:972-1008 | When the consumer has caught up and no producer is half way, everything pushed has been processed. |
| Coex.OrderExact | unionpi_tiger/hardware/bt/src/userial_vendor.c:721-1008 | In every state of every run, what has been processed is in the order it was pushed if and only if its directions are. |
| Coex.OrderIsTokenOrder | unionpi_tiger/hardware/bt/src/userial_vendor.c:721-1008 | Once the consumer has caught up, both directions together were processed in the order they were pushed if and only if the tokens were pushed in the order of the data. |
| Coex.RunKinds | unionpi_tiger/hardware/bt/src/userial_vendor.c:721-1008 | In every run data is processed in the order of the tokens. |
| Coex.SerialOrder | unionpi_tiger/hardware/bt/src/userial_vendor.c:721-1008 | In particular, when producers do not overlap, both directions together are processed in the order they were pushed. |
| Coex.OverlapReorders | unionpi_tiger/hardware/bt/src/userial_vendor.c:721-742 | When they do overlap, the two directions can be exchanged: a concrete run. |
| Coex.RunKeeps | unionpi_tiger/hardware/bt/src/userial_vendor.c:721-1008 | The accounting of data by tokens and producers holds in every run. |
| Coex.CoexQueues.EnqueueRawdata | unionpi_tiger/hardware/bt/src/userial_vendor.c:721-742 | Appends one item to what waits. |
| Coex.CoexQueues.Handler | unionpi_tiger/hardware/bt/src/userial_vendor.c:972-1008 | Handles everything that waits, in order, and stops. |
| ConfigImage.ParseSerialize | unionpi_tiger/hardware/bt/src/hardware_uart.c:648-654 | The bytes of a list of entries can be read back in only one way. |
| ConfigImage.EntryLayout | unionpi_tiger/hardware/bt/src/hardware_uart.c:592-619 | An entry in bytes: offset, low byte first, length, data. |
| ConfigImage.OriginalsKept | unionpi_tiger/hardware/bt/src/hardware_uart.c:619-647 | Original entries keep place, offset and length; each becomes the extra setting of its offset and length, if there is one and it is not the MAC's, and stays as it is if there is none. |
| ConfigImage.AppendedExactly | unionpi_tiger/hardware/bt/src/hardware_uart.c:648-664 | Behind them come exactly the extra settings that fit no original entry, each once and in the order of the table. |
| ConfigImage.ExtraPresent | unionpi_tiger/hardware/bt/src/hardware_uart.c:619-669 | Every extra setting but one for the MAC offset is in the merged image with its value. |
| ConfigImage.MergedTwice | unionpi_tiger/hardware/bt/src/hardware_uart.c:570-676 | Merging the same settings again changes nothing. |
| ConfigImage.MergedFits | unionpi_tiger/hardware/bt/src/hardware_uart.c:968-978 | The merged image fits the buffer and its size the length field. |
| ConfigUpdate.GetAltSettingVal | unionpi_tiger/hardware/bt/src/hardware_uart.c:537-568 | The value of an offset is that of its extra setting, and none for the MAC offset. |
| ConfigUpdate.ClearSlots | unionpi_tiger/hardware/bt/src/hardware_uart.c:620-637 | An entry clears exactly the slots it settles. |
| ConfigUpdate.ReplaceEntry | unionpi_tiger/hardware/bt/src/hardware_uart.c:638-642 | One entry is rewritten in place and nothing around it changes. |
| ConfigUpdate.AppendMissing | unionpi_tiger/hardware/bt/src/hardware_uart.c:648-664 | The settings that are missing, and no others, are appended in order. |
| ConfigUpdate.UpdateAltSettings | unionpi_tiger/hardware/bt/src/hardware_uart.c:570-669 | With a right length field the image in the buffer becomes the merged one with its new length, low byte first, and the old signature; otherwise nothing changes. |
| FirmwareDownload.BuildImage | unionpi_tiger/hardware/bt/src/hardware_uart.c:917-936 | Byte by byte: the patch but for its last four bytes, the firmware version in their place, then the configuration. |
| FirmwareDownload.FragmentsJoin | unionpi_tiger/hardware/bt/src/hardware_uart.c:1241-1255 | The data of all fragments, one after the other, is the image. |
| FirmwareDownload.CommandBytes | unionpi_tiger/hardware/bt/src/hardware_uart.c:998-1013 | Every command byte by byte: opcode 0xfc20, low byte first, number of bytes that follow, index, and the next 252 bytes of the image or what is left of it. |
| FirmwareDownload.IndexShape | unionpi_tiger/hardware/bt/src/hardware_uart.c:1322-1332 | Only the last index has the top bit, the others run 0, 1 to 127, 1 to 127, and neighbours differ. |
| FirmwareDownload.Download.Prepare | unionpi_tiger/hardware/bt/src/hardware_uart.c:1235-1255 | Count and last length of the fragments, in one byte each; refused exactly when the image is empty or too large. |
| FirmwareDownload.Download.SendFragment | unionpi_tiger/hardware/bt/src/hardware_uart.c:998-1013 | The command sent, in bytes: opcode 0xfc20, low byte first, one more than the data, index, data. |
| FirmwareDownload.Download.OnReply | unionpi_tiger/hardware/bt/src/hardware_uart.c:1298-1338 | A reply ends the exchange or causes the next fragment, as specified. |
| FirmwareDownload.Download.Exchange | unionpi_tiger/hardware/bt/src/hardware_uart.c:1298-1338 | For every sequence of replies, how many fragments are sent and how the exchange ends. |
| FirmwareDownload.Download.RunWithEcho | unionpi_tiger/hardware/bt/src/hardware_uart.c:1230-1338 | With a controller that echoes the index every fragment is sent once, in order, and then the exchange is over. |

## Left out

- Threads, condition variables, POSIX timers, sockets, file and termios access, logging, and the starting and stopping of timers: a timer may fire at any time.
- Allocation failure: every allocation succeeds.
- The C control block is one struct; here it is three objects (sender, decoder, endpoint) that own disjoint memory.
- Packets queued for the stack, intercepted or waiting to be sent are values in their queue nodes; sharing one buffer between the receiver and a queue is not captured.
- Payload bytes compared beyond the end of a short control packet are eight fixed but arbitrary bytes (`stale`); the code reads what the allocation held.
- The global count of command packets, and the copy of each packet that `h5_complete_rx_pkt` makes and frees.
- H5System.EndToEnd: an endpoint is initialised once; a peer that restarts its link keeps its counters, as the code does, and one whose counters are zeroed while the other's are not is not covered. Damage that neither the header checksum nor the length nor the check detects, and damage to stuffed bytes that merges or splits frames, is not covered. The third byte of a config response is added on the wire, because the code itself sends two.
- H5EndToEnd.StacksReceive: within the same bounds. Packets are counted as received when they are in the queue to the stack; what the stack does with them is not modelled.
- GoBackNProgress.Progress: says that delivery can be completed, not that the timers and the wires will let it.
- H5.Endpoint.BaudrateReadyTimeout: does nothing when no reply is kept, where the code would queue a null buffer; `H5Link.TimerFindsReply` says when that is.
- RtkQueues.RtkQueue.Insert: says nothing about a node that is already in a list, which the code would corrupt.
- `RtbCloneBuffer`, `RtbCheckQueueLen`, and the direct writes to `Length` by the coexistence producers, which bypass the buffer invariant.
- Reassembler.StreamParser.HandleRecvData: `received_resvered_header` has 2048 bytes in the code; here it is unbounded, so nothing is said about ACL packets longer than it.
- What is done with a completed packet after reassembly, and the second reassembler of the coexistence thread, which has the same states without the rewriting.
- Coex.CoexQueues.EnqueueRawdata: makes its two pushes as one step; the step relation keeps them apart.
- Coex.CoexQueues.Handler: runs without producers beside it; the interleavings are those of the step relation, on values.
- The separate SCO sockets of `userial_vendor.c`, the pull-based H4 reader, and the USB transport.
- ConfigUpdate.UpdateAltSettings: requires entries that fill the announced length exactly, and extra settings with distinct non-zero offsets; the code checks neither, and what it does with other images is not modelled. The table of extra settings is a list, not the bytes of a second buffer.
- The value for the MAC offset: `getmacaddr` always fails in this code, so there never is one.
- Text parsing of configuration and extra settings, the patch table and the choice of a patch, baud rates and flow control pins.
- FirmwareDownload.Download.SendFragment: does not send what lies beyond the image when a controller never sets the top bit; the model records that and stops.
- `rtk_parse.c`, which tracks connections and profiles and tells the Wi-Fi side and the firmware of them; `rtk_heartbeat.c`, which reports a hardware error when the numbered replies to its command go missing; `rtk_poll.c`, an idle timer for traffic between host and controller; `rtk_btsnoop_net.c`, `rtk_socket.c` and `rtk_btservice.c`, logging and sockets.
