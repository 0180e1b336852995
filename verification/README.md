# gopher-rdp: a verified model of its state and arithmetic cores

gopher-rdp is an RDP client. This project models the parts of it that are hardest to get
right by reading alone, and proves what they promise:

- **Bulk decompression** (`Bits`, `MppcCode`, `MppcReplay`, `MppcTokens`, `Mppc`,
  `MppcHistory`): the MPPC decoder's 32-bit shift register, prefix code and overlapping copies,
  against bit strings, tokens and LZ77 replay, over whole runs of packets (MS-RDPBCGR 3.1.8.4).
- **Channels** (`Wire`, `Dvc`, `DvcRuns`, `StaticChannel`, `ChannelStack`, `ChannelWire`):
  fragmentation and reassembly on dynamic channels inside static ones, end to end, under any
  interleaving, and byte by byte.
- **Lifecycle** (`Lifecycle`): Close, disconnect, reconnect and resize as interleaved sections
  under one lock.
- **Graphics pipeline** (`Raster`, `Framebuffer`, `Egfx`, `EgfxCoherence`, `EgfxPictures`,
  `EgfxOverrun`, `EgfxFrames`, `EgfxDrawing`, `EgfxHandler`): surfaces, recorded
  rectangles and the bottom-up screen that must agree.
- **Drawing orders** (`Orders`, `OrderStream`, `OrderWire`, `OrderDecoder`, `Rop`, `Shading`,
  `Blits`, `BlitOrders`, `DesktopSave`): the stateful delta decoder against every legal sender, and the
  clipped blits with ternary raster operations against one specification per pixel.
- **Pixel codecs** (`VBars`, `VBarBands`, `VBarBytes`, `VBarDecoder`, `Rlex`, `RlexDecoder`,
  `RlexBytes`, `NsPlane`, `NsColor`): ClearCodec's column caches and palette runs,
  NSCodec's planes and colours.
- **Audio** (`Pcm`, `Ima`, `ImaBlocks`, `ImaDecoder`, `MsAdpcm`, `MsChoice`, `MsStream`,
  `MsBlocks`, `MsCodec`, `MsDecoder`, `AdpcmNumbers`, `AdpcmBytes`, `MsBytes`, `Audin`,
  `AudinSends`): both ADPCM encoders of the audio-input channel
  against the decoders of the audio-output channel, and the re-blocking sender.

Code that changes state is modelled by classes and methods on arrays (`Mppc.Decompressor`,
`Dvc.Handler`, `StaticChannel.Client`, `Lifecycle.Client`, `EgfxHandler.Handler`,
`OrderDecoder.Decoder`, `BlitOrders.Canvas`, `DesktopSave.Cache`, `VBarDecoder.Decoder`,
`Audin.Handler`). Each method is proved equal to a function of the old state, and the
properties are proved about those functions, relations between them first and then, where a
table, a constant or an order of bytes decides, their values in plain numbers. Machine
words are natural numbers with their width written out. A pixel is four bytes and all offsets in the pixel code are multiples of
four, so pixel buffers are sequences of pixels.

Check everything with `dafny verify dfyconfig.toml`.

## Where the code differs from its comments

The model follows the code. These differences are stated as lemmas:

- `Done` is documented as closed when the connection ends. After an exhausted reconnect it
  stays open for ever (`Lifecycle.ExhaustedLeavesDoneOpen`,
  `Lifecycle.DoneClosedUnlessOrphaned`). A connection lost in a short window of the handover
  is neither reconnected nor reported (`Lifecycle.UnattendedExactlyAtHandover`,
  `Lifecycle.LinkGoesUnattended`). A disconnect reported late, by a goroutine of an earlier
  connection, ends the one that is up (`Lifecycle.AnyReportEnds`,
  `Lifecycle.LateReportEndsLiveLink`).
- The pattern blit says that it resolves brushes as the memory blit does. It differs in two
  ways: where a brush cannot be resolved, one paints the background colour and the other the
  foreground; and the null brush paints nothing in the one and the foreground in the other
  (`Blits.OrdersAgreeIff`).
- A static message whose start is refused for its size does not end an unfinished message on
  the channel; its remaining chunks complete that one. `ChannelStack.MessageOutcome` says what
  is delivered in every state, `ChannelStack.ArrivesIffItFits` when it is the message, and
  `ChannelStack.RefusedStartMixesMessages` leads there from an empty client.
- A dynamic-channel message over 64 MiB is said to be dropped. Its first fragment is; every later
  one is delivered as a message of its own (`DvcRuns.MessageOutcome`, `DvcRuns.ArrivesIff`).
- An 8K match that reaches past the mask reads elsewhere (`MppcReplay.MatchIndexIntended`).
- A fill or copy that runs past the right edge writes the start of the next row, which is not
  shown (`EgfxOverrun.FilledRightIff`, `EgfxOverrun.CopiedRightIff`, and for whole frames
  `EgfxFrames.FrameStaysRightIff`).
- A second frame start discards the rectangles of the first (`EgfxPictures.NestedFrameForgets`).
- An audio format that states zero samples per block makes the sending loop endless
  (`Audin.EndsIff`), and a stereo block shorter than announced does the same to the playback
  decoder (`ImaDecoder.StereoEndsIff`).
- NSCodec data as long as its plane is taken as raw, even if it is an encoding
  (`NsPlane.PlaneRoundTrip`, `NsPlane.CodeTakenForPlane`), and planes under four bytes can keep old contents
  (`NsPlane.NothingStaleIff`).

## Model

| member | source | states |
|---|---|---|
| MppcReplay.ExpandReplays | protocol/mppc/mppc.go:78-350 | main result: for every list of literal and match tokens valid for the history, in the 8K and in the 64K code, running the packed tokens followed by fewer than eight zero bits gives exactly the LZ77 replay of the list |
| MppcCode.TokenRoundTrip | protocol/mppc/mppc.go:87-321 | parsing the code of any valid token, whatever follows it, yields the token and leaves what follows |
| MppcReplay.CopyIsRepeat | protocol/mppc/mppc.go:327-338 | the byte-by-byte copy of a match appends its distance-periodic repetition, also where source and target overlap |
| MppcReplay.CopyIsPeriodic | protocol/mppc/mppc.go:333-338 | byte j of a copy at distance d is byte j mod d of the d bytes before it |
| MppcReplay.MatchIndexIntended | protocol/mppc/mppc.go:327-332 | the masked history index is the intended one if and only if the distance reaches no further back than the start and, in the 8K code, the intended index stays below 8192 |
| MppcReplay.ExpandKeepsPast | protocol/mppc/mppc.go:78-339 | for any input, malformed ones included, no byte below the starting position changes |
| MppcReplay.ReplayConcat | protocol/mppc/mppc.go:78-339 | replaying two lists in turn is replaying their concatenation |
| MppcReplay.ReplayExtends | protocol/mppc/mppc.go:333-338 | a replay only appends: what was in the window stays in front |
| Mppc.LoadHolds | protocol/mppc/mppc.go:83-85 | loading a byte keeps the register invariant: its top bits and the bytes not yet loaded are the unread bits, with zeros below |
| Mppc.DropHolds | protocol/mppc/mppc.go:105-106 | shifting k bits out keeps the register invariant for the unread bits without their first k |
| Mppc.TopBits | protocol/mppc/mppc.go:164-182 | the unsigned shift right reads the number that the first unread bits denote |
| Mppc.SignBit | protocol/mppc/mppc.go:87 | the sign of the walker is the first unread bit |
| Mppc.SignedField | protocol/mppc/mppc.go:315-318 | the arithmetic shift, masked and or-ed with the implied bit, reads a length field although the walker is signed |
| Mppc.LongDistField | protocol/mppc/mppc.go:244-256 | the long distance of the 8K code may be read together with its clear tag bit |
| Mppc.LeftoverBits | protocol/mppc/mppc.go:89-95 | with fewer than eight bits left, the walker is zero exactly when they are all clear |
| Mppc.Fill | protocol/mppc/mppc.go:159-166 | loads until n bits are there or reports that the packet is exhausted, keeping the register invariant |
| Mppc.DecodeDist | protocol/mppc/mppc.go:155-257 | reads the distance that the bit string parses to, or fails where parsing fails |
| Mppc.DecodeLen | protocol/mppc/mppc.go:268-321 | reads the length that the bit string parses to, or fails where parsing fails |
| Mppc.ReadToken | protocol/mppc/mppc.go:78-321 | reads the token that the unread bits parse to and leaves the register at the rest |
| Mppc.Decompressor.Decompress | protocol/mppc/mppc.go:40-350 | for every packet and type byte, output, history and position are those of the bit-string semantics, errors and the out-of-range history index included |
| MppcHistory.RunReplays | protocol/mppc/mppc.go:40-350 | main result: history across packets: in any run, after whatever packets came before, malformed ones included, packets that carry valid tokens yield one replay of all those tokens cut into the packets outputs; the first of them may rewind by a reset or a flush and then starts from the empty window, uncompressed packets between them pass |
| MppcHistory.PacketReplays | protocol/mppc/mppc.go:53-349 | one compressed packet (bit 5) of valid tokens, in the code bit 0 selects: where bit 6 or 7 is set the new window is exactly the output and the replay from nothing, otherwise the window grows by the output into the replay; behind it the history is as it was, or zero after bit 7 |
| MppcHistory.PastKept | protocol/mppc/mppc.go:53-349 | whatever the packet: the bytes of the window it continues, empty after a reset or flush, stay; success returns exactly the bytes behind them; failure leaves the position there |
| MppcHistory.FlagsMean | protocol/mppc/mppc.go:41-61 | what the type byte means: bit 5 compresses, bit 0 selects the 64K code, bits 6 and 7 set the position to zero, bit 7 clears every byte of the history |
| MppcHistory.PlainPacket | protocol/mppc/mppc.go:41-51 | an uncompressed packet is delivered as it is; its flags alone touch position and history |
| MppcHistory.StretchReplays | protocol/mppc/mppc.go:40-350 | from any state, a stretch of packets whose first may rewind yields one replay of all its tokens |
| MppcHistory.PacketFails | protocol/mppc/mppc.go:89-139 | main result: behind valid tokens a packet fails on bits that are no token and no end, and on a token that would fill the history; a match that would be read over the end of the history stops the program |
| MppcHistory.BitsAt | protocol/mppc/mppc.go:79-86 | the bits of a packet are those of its bytes, the highest bit of each first |
| MppcTokens.ReadsExactly | protocol/mppc/mppc.go:78-321 | main result: a token is read if and only if its code stands there, and what follows it is what is left; the end is read if and only if fewer than eight zero bits are left; all other bits are malformed |
| MppcTokens.NumeralAt | protocol/mppc/mppc.go:164-169 | the bit at every place of a numeral, the highest first |
| MppcTokens.LiteralNumber | protocol/mppc/mppc.go:87-137 | a byte below 128 is eight bits, any other nine, as numbers |
| MppcTokens.DistNumberBig | protocol/mppc/mppc.go:155-213 | the 64K code of every distance as one number of nine, eleven, thirteen or seventeen bits |
| MppcTokens.DistNumberSmall | protocol/mppc/mppc.go:214-257 | the 8K code of every distance as one number of eight, ten or fourteen bits |
| MppcTokens.LengthNumber | protocol/mppc/mppc.go:268-321 | the code of every length as one number: three is a zero bit, a length between p, the e-th power of two, and 2p is p*p - 3p + length in 2e bits |
| MppcTokens.ValidIff | protocol/mppc/mppc.go:100-338 | the tokens that can be sent behind a window of any size, in numbers |
| MppcTokens.TokenRuns | protocol/mppc/mppc.go:100-338 | what any token does at any place, byte by byte: errors on a full history, the index wrapped to 64K or 8K, copies that repeat what is before them or move what is behind, and the copy that runs over the end |
| MppcTokens.RunFails | protocol/mppc/mppc.go:89-338 | behind valid tokens the run fails or traps exactly as the next bits say |
| MppcHistory.PackedBits | protocol/mppc/mppc.go:78-86 | any bit string, padded with fewer than eight zeros, is the bits of some bytes, so every token list can be sent |
| DvcRuns.InterleavingDelivers | protocol/dvc/dvc.go:92-317 | main result: in any run of PDUs in which those naming a channel are the fragments of its messages in order, that channel receives exactly the messages, once each, in order, whatever the other channels do in between |
| DvcRuns.MessageOutcome | protocol/dvc/dvc.go:118-317 | main result: what a handler is given of one message, in any state of its channel, for any length and payload limit and under any interleaving: of several fragments, the message if it has at most 64 MiB, else every fragment after the first as a message of its own (and a prefix and the remaining fragments where its length wraps around 32 bits below that); of a single PDU, the message, or what was pending completed by it |
| DvcRuns.ArrivesIff | protocol/dvc/dvc.go:243-317 | a handler is given exactly the message if and only if the message is in several fragments and has at most 64 MiB, or is in one PDU and nothing is pending or the pending bytes happen to begin the message |
| DvcRuns.PiecesDelivered | protocol/dvc/dvc.go:266-273 | where nothing is pending, every data fragment is delivered on its own |
| DvcRuns.PiecesReceived | protocol/dvc/dvc.go:254-264 | a message in progress takes fragments until its announced length is reached; what follows is delivered fragment by fragment |
| DvcRuns.MessageReceived | protocol/dvc/dvc.go:118-166 | the fragments of one message rebuild it and leave the channel idle |
| DvcRuns.StreamReceived | protocol/dvc/dvc.go:243-317 | the fragments of successive messages rebuild them one after the other |
| DvcRuns.StepIsLocal | protocol/dvc/dvc.go:92-116 | a PDU changes and calls the channel it names and no other |
| DvcRuns.RunIsLocal | protocol/dvc/dvc.go:92-116 | each channel sees its own PDUs only, however a run interleaves them |
| Dvc.FragmentSizes | protocol/dvc/dvc.go:118-166 | no fragment is longer than the payload limit |
| Dvc.NineIsEnough | protocol/dvc/dvc.go:118-166 | a limit of nine bytes leaves room in every fragment, so the fragment loop ends |
| Dvc.ChannelIdRoundTrip | protocol/dvc/dvc.go:353-417 | reading a channel number back gives it and the bytes it took, whatever follows |
| Dvc.Handler.SendData | protocol/dvc/dvc.go:118-166 | what is sent is the fragment list of the message |
| Dvc.Handler.ProcessPDU | protocol/dvc/dvc.go:92-116 | for every PDU the new channel table and the deliveries are those of the step function |
| Dvc.Handler.HandleDataFirst | protocol/dvc/dvc.go:276-317 | starts a message, refuses it over 64 MiB, delivers it if it is whole |
| Dvc.Handler.HandleData | protocol/dvc/dvc.go:243-274 | appends to a message in progress and delivers it when complete, or delivers an unfragmented one |
| ChannelWire.CreateOpens | protocol/dvc/dvc.go:191-241 | a create PDU byte by byte, in any spelling of the number: the channel is open with nothing pending if the policy admits the name up to its zero, and as it was if not |
| ChannelWire.CloseRemoves | protocol/dvc/dvc.go:338-351 | after a close PDU the channel is gone, and nothing else changes |
| ChannelWire.DataArrives | protocol/dvc/dvc.go:243-274 | a data PDU byte by byte: delivered at once when nothing is pending, else added and delivered cut to the announced length when that is reached, counted in 32 bits |
| ChannelWire.DataFirstArrives | protocol/dvc/dvc.go:276-317 | a data-first PDU byte by byte: over 67108864 bytes the channel is cleared, a whole message is delivered cut to its length, else it is what is pending |
| ChannelWire.NoNumberIsZero | protocol/dvc/dvc.go:377-396 | a number that is cut off or of the size that does not exist is taken for channel 0 |
| ChannelWire.NothingElse | protocol/dvc/dvc.go:92-116 | other commands, an empty PDU and a create PDU without a name change nothing |
| ChannelWire.OneSent | protocol/dvc/dvc.go:118-135 | a message that fits is sent as one data PDU with the shortest spelling of its channel number, byte by byte |
| ChannelWire.SeveralSent | protocol/dvc/dvc.go:136-166 | a longer one is sent as a data-first PDU that fills the limit, byte by byte, and as many further PDUs as the rest needs |
| ChannelWire.LaterSent | protocol/dvc/dvc.go:146-166 | the later PDUs byte by byte: each the next piece of the message, all but the last filling the limit |
| ChannelStack.StackDelivers | client.go:912-914 | main result: messages sent over the two layers together arrive exactly, once each, in order, under any interleaving of static and dynamic channels |
| ChannelStack.InterleavingDelivers | client.go:4670-4750 | a nonempty static message split into chunks is rebuilt exactly under any interleaving that keeps within the size limits |
| ChannelStack.MessageOutcome | client.go:4707-4748 | main result: what a channel delivers of a message of several chunks, in every state and under any interleaving: the message if its start fits the two limits, else the unfinished message that the channel holds completed by the rest of this one, else nothing |
| ChannelStack.ArrivesIffItFits | client.go:4707-4748 | in every state, a message of several chunks arrives exactly if and only if its start fits the two limits, or the channel holds the very bytes of its first chunk |
| ChannelStack.RefusedStartMixesMessages | client.go:4707-4748 | from an empty client: after the first chunk of any message, a message over 64 MiB is delivered with that chunk in place of its own, on every channel and under any interleaving |
| ChannelStack.SmallAlwaysAdmitted | client.go:4690-4705 | single-chunk messages are never subject to the limits |
| ChannelStack.RunKeepsTotal | client.go:4670-4750 | in every reachable state the byte counter is the sum of the lengths of all buffers |
| StaticChannel.StepKeepsTotal | client.go:4670-4750 | one PDU, of any content, keeps the counter equal to the sum of the buffers |
| ChannelStack.RunIsLocal | client.go:4670-4750 | each static channel sees its own chunks only |
| StaticChannel.Client.HandleVirtualChannelData | client.go:4670-4750 | for every chunk, buffers, counter and deliveries are those of the step function |
| StaticChannel.Client.SendChannelData | client.go:4763-4823 | what is written is the chunk list of the message; an empty message writes nothing |
| ChannelWire.ChunksWritten | client.go:4763-4823 | the chunks of a message byte by byte: as many as 1600 bytes each need, every piece in its place, the length and the first, last and show flags in their words |
| ChannelWire.ChunkArrives | client.go:4670-4750 | what any chunk does to buffers, counter and deliveries, from its bytes: limits of 67108864 and 268435456 on a start alone, replacement, completion, and chunks without a start |
| Lifecycle.Safety | client.go:2459-2574 | main result: in every interleaving of Close, disconnects, resizes and reconnect attempts, every done channel is closed at most once, at most one driver is active, OnDisconnect fires at most once, after closed was set, and a live connection is of the current generation |
| Lifecycle.AttemptsBounded | client.go:2466-2490 | in every interleaving no more connection attempts are made than are allowed, none for a negative number, any number for zero, and the loop gives up only after all of them |
| Lifecycle.EndedIsFinal | client.go:5652-5660 | closed and not reconnecting is final: no event changes a flag, makes a channel or closes one |
| Lifecycle.DoneClosedUnlessOrphaned | client.go:5452-5459 | the done channel of an ended connection is closed unless a driver gave up after having made a fresh one |
| Lifecycle.ExhaustedLeavesDoneOpen | client.go:2484-2491 | a run in which the attempts are exhausted: the connection ends, the disconnect is reported, the done channel handed out is never closed |
| Lifecycle.UnattendedExactlyAtHandover | client.go:2549-2554 | a lost link goes unattended if and only if a driver hands over a connection lost between its Connect and the clearing of the reconnecting flag |
| Lifecycle.LinkGoesUnattended | client.go:2549-2554 | a run in which that happens, whatever the number of attempts |
| Lifecycle.AnyReportEnds | client.go:2549-2574 | in every reachable state, a report by a goroutine of any connection, also an earlier one, takes effect if and only if the client is neither closed nor reconnecting; it then closes the done channel of the live connection and gives it up or replaces it |
| Lifecycle.LateReportEndsLiveLink | client.go:2549-2574 | a run in which that happens: the disconnect is reported while the new connection is up |
| Lifecycle.SectionKeepsRoles | client.go:2459-2574 | every lock-protected section keeps the one-driver and one-reporter invariant |
| Lifecycle.Client.Close | client.go:5652-5660 | does nothing when closed or reconnecting, else sets closed and closes the current done channel |
| Lifecycle.Client.HandleDisconnect | client.go:2549-2574 | closes the current done channel once and chooses between reconnecting and reporting |
| Lifecycle.Client.ResizeViaReconnect | client.go:2496-2512 | becomes the driver only if nobody is and the connection is not closed |
| Lifecycle.Client.ResetForReconnect | client.go:2380-2456 | clears closed and starts a new done generation |
| Framebuffer.WriteStridedAt | framebuffer.go:266-284 | each screen pixel after a write, for every rectangle and source: the source pixel where the rectangle is, the old pixel elsewhere |
| Framebuffer.ClipIsIntersection | framebuffer.go:53-72 | the clipped rectangle is the part of the rectangle on the screen |
| Framebuffer.SourceUnshiftedIff | framebuffer.go:266-284 | a clipped write shows the source pixels that the rectangle means if and only if it does not start left of or above the screen |
| Framebuffer.RawAt | framebuffer.go:266-284 | rows are stored from the bottom up: where the buffer keeps the pixel of every place |
| Framebuffer.RawWritten | framebuffer.go:266-284 | the buffer index by index after any write: inside the rectangle on the screen the source pixel in its row and column counted from the clipped corner, else the old one, also for a source too short or too narrow |
| Raster.CopyRowsAt | framebuffer.go:266-284 | a row-by-row copy of a rectangle that fits moves exactly its pixels |
| Raster.CopyRowsOutside | protocol/egfx/egfx.go:963-969 | outside the rectangle a row-by-row copy changes nothing, whatever the source offers |
| Raster.FillRowsAt | protocol/egfx/egfx.go:1239-1250 | a row-by-row fill colours exactly the rectangle |
| Raster.BlitRows | protocol/egfx/egfx.go:963-969 | the copying loop computes the row-by-row copy, skipping rows that do not fit |
| Raster.PaintRows | protocol/egfx/egfx.go:1239-1250 | the filling loop computes the row-by-row fill |
| EgfxCoherence.Coherence | protocol/egfx/egfx.go:278-331 | main result, display coherence: through any legal run of commands, every pixel that was shown right at the start or painted since, and whose surface was not remade or moved, is shown right whenever no frame is open, although rectangles are shown late, from the final surface and flipped |
| EgfxCoherence.StepKeeps | protocol/egfx/egfx.go:458-496 | one legal command of any kind keeps every tracked pixel shown right or waiting in a recorded rectangle |
| EgfxCoherence.FlushAgrees | protocol/egfx/egfx.go:700-750 | showing the recorded rectangles in order makes a pixel right if and only if it is covered or was right |
| EgfxCoherence.EmitAt | protocol/egfx/egfx.go:292-331 | each screen pixel after one rectangle is shown |
| EgfxCoherence.PaintKeeps | protocol/egfx/egfx.go:278-290 | changing a surface inside an area and announcing the area keeps the invariant, inside a frame and outside |
| EgfxPictures.BlitCopies | protocol/egfx/egfx.go:1256-1351 | a surface copy moves the source rectangle as it was before the command, also within one surface where the places overlap |
| EgfxPictures.CacheRoundTrip | protocol/egfx/egfx.go:1352-1457 | what was saved to a cache slot is put back pixel for pixel, whatever happened to the surfaces in between |
| EgfxPictures.PutCopies | protocol/egfx/egfx.go:1406-1457 | a painted picture copies its pixels to its place and changes nothing else |
| EgfxPictures.CutShows | protocol/egfx/egfx.go:1377-1385 | the buffer cut out of a surface holds exactly the rectangle |
| EgfxPictures.NestedFrameForgets | protocol/egfx/egfx.go:685-699 | a frame opened inside a frame loses what was recorded: at its end exactly the pixels that were right are right |
| EgfxOverrun.StaysRightIff | protocol/egfx/egfx.go:278-331 | after any repainting outside a frame, a pixel that was shown right is shown right if and only if it belongs to another surface, lies in the announced rectangle, or kept its colour |
| EgfxOverrun.FilledRightIff | protocol/egfx/egfx.go:1239-1252 | after a fill of any area, past any edge, a pixel that was shown right is shown right if and only if it is in the area, in none of the stretches of the buffer that the rows fill, or already has the colour |
| EgfxOverrun.CopiedRightIff | protocol/egfx/egfx.go:1406-1457 | after a copy to any place the same, where the colour written is that of the last row that reaches the pixel |
| EgfxOverrun.FillRowsExact | protocol/egfx/egfx.go:1239-1252 | a fill colours exactly the stretches of its rows, also where they run over the edge |
| EgfxOverrun.CopyRowsExact | protocol/egfx/egfx.go:1330-1342 | a copy leaves at each index the pixel of the last row that fits and reaches it, also where rows overlap |
| EgfxOverrun.OverlongRowGoesStale | protocol/egfx/egfx.go:1239-1252 | it does go wrong: a row past the right edge recolours the start of the next row, which is then shown wrong |
| EgfxFrames.FrameRightIff | protocol/egfx/egfx.go:685-750 | main result: after a whole frame of any drawing commands, past the edges and over each other, a pixel is shown right if and only if an announced rectangle of its surface holds it or its final colour is the one the screen had |
| EgfxFrames.FrameStaysRightIff | protocol/egfx/egfx.go:685-750 | a pixel shown right before a frame is right after it if and only if it was announced or has its old colour |
| EgfxFrames.RunDraws | protocol/egfx/egfx.go:278-290 | drawing in an open frame leaves screen, layout and sizes alone and records exactly the announced rectangles, in order |
| EgfxPictures.UnmappedSurfaceCovers | protocol/egfx/egfx.go:292-331 | an unmapped surface is shown at the origin: a mapped pixel there stays right if and only if the colours agree |
| EgfxDrawing.BlitLeaves | protocol/egfx/egfx.go:1256-1350 | every surface pixel after a surface-to-surface copy: that of the source rectangle, as it was before the command, which the last point covering the pixel puts there, else the old one; in coordinates |
| EgfxDrawing.RestoreLeaves | protocol/egfx/egfx.go:1406-1456 | every surface pixel after a cache-to-surface command: the row and column of the entry that the last point covering it puts there, else the old one |
| EgfxDrawing.WireLeaves | protocol/egfx/egfx.go:795-972 | every surface pixel after decoded pixels arrive: the (y - top) * width + (x - left)-th of them in the area, if there are enough, else the old one |
| EgfxDrawing.TileLeaves | protocol/egfx/egfx.go:1499-1548 | every surface pixel after a tile: the (y - ty) * 64 + (x - tx)-th tile pixel inside tile, clip rectangle and surface, else the old one |
| EgfxDrawing.FillLeaves | protocol/egfx/egfx.go:1204-1254 | every surface pixel after a fill: the opaque colour exactly where a rectangle holds it, also where a row runs over the edge |
| EgfxDrawing.SaveLeaves | protocol/egfx/egfx.go:1352-1404 | the cache entry after a save: pixel (i, j) is that of the rectangle in its row and column; the surfaces stay |
| EgfxDrawing.CacheBounded | protocol/egfx/egfx.go:1386-1396 | the cache never holds more than 8192 entries, and an entry that is neither stored nor evicted stays |
| EgfxDrawing.CreateLeaves | protocol/egfx/egfx.go:498-529 | a created surface is white and of the given size; a 257th is refused; the others stay |
| EgfxDrawing.ResetLeaves | protocol/egfx/egfx.go:1160-1191 | after a reset there is no surface, mapping or open frame, the screen is black and of the given size, the cache stays |
| EgfxDrawing.MapPlaces | protocol/egfx/egfx.go:542-552 | a mapped surface is shown with its pixel (px, py) at (x + px, y + py), and no other mapping changes |
| EgfxDrawing.DeleteLeaves | protocol/egfx/egfx.go:531-540 | a deleted surface and its place are gone, every other stays |
| EgfxHandler.Handler.HandleAll | protocol/egfx/egfx.go:386-410 | a run of commands on the heap buffers is the run of the step function |
| EgfxHandler.Handler.HandleCommand | protocol/egfx/egfx.go:458-496 | every command on the heap buffers does what the step function says, and no two surfaces come to share pixels |
| EgfxHandler.Handler.HandleEndFrame | protocol/egfx/egfx.go:700-750 | shows the recorded rectangles in order, then forgets them |
| EgfxHandler.Handler.HandleSolidFill | protocol/egfx/egfx.go:1204-1255 | fills and announces each rectangle in turn, opaque |
| EgfxHandler.Handler.HandleSurfaceToSurface | protocol/egfx/egfx.go:1256-1351 | copies to every destination point, within one surface from a copy taken first |
| EgfxHandler.Handler.HandleSurfaceToCache | protocol/egfx/egfx.go:1352-1405 | stores a copy of the rectangle; a full cache first loses the entry that iteration yields |
| EgfxHandler.Handler.HandleCacheToSurface | protocol/egfx/egfx.go:1406-1457 | paints the entry at every destination point |
| EgfxHandler.Handler.HandleWireToSurface | protocol/egfx/egfx.go:955-972 | writes decoded pixels of sufficient length row by row and announces the rectangle |
| EgfxHandler.Handler.BlitTileClipped | protocol/egfx/egfx.go:1499-1548 | writes the part of a tile inside clip rectangle and surface |
| EgfxHandler.Handler.EmitBitmapRect | protocol/egfx/egfx.go:292-331 | clamps to the surface and shows the window at its output origin |
| EgfxHandler.Handler.NotifyBitmap | protocol/egfx/egfx.go:278-290 | records the rectangle inside a frame, shows it outside |
| OrderStream.Synchronised | protocol/orders/decode.go:11-152 | main result: for every sequence of orders and every legal choice of present fields, stepped coordinates, dropped flag bytes, type byte and bounds form, with cache and skipped orders in between, the decoder delivers every order with its fields and bounds and ends in the state of the sender |
| OrderStream.FieldsRoundTrip | protocol/orders/decode.go:406-1047 | the fields sent update exactly themselves, the others keep their last values |
| OrderStream.FieldRoundTrip | protocol/orders/decode.go:250-403 | every field reader inverts its encoding and stops behind it |
| OrderStream.StepArrives | protocol/orders/decode.go:272-288 | a signed 8-bit step added with 16-bit wrap-around arrives at the next value |
| OrderStream.DroppedFlags | protocol/orders/decode.go:66-88 | dropping flag bytes that are clear loses no flag |
| OrderStream.SidesRoundTrip | protocol/orders/decode.go:182-246 | bounds given side by side as absolute, stepped or unchanged are read back |
| OrderStream.PrimaryRoundTrip | protocol/orders/decode.go:45-151 | one primary order behind its control byte is read back, state and event |
| OrderStream.CacheRoundTrip | protocol/orders/decode.go:156-179 | a secondary order is delivered with its payload; its length field is off by the fixed amount and signed |
| OrderStream.SendableInFull | protocol/orders/decode.go:11-152 | any fields that fit have a legal encoding |
| OrderStream.AfterValid | protocol/orders/decode.go:11-152 | a legal order leaves a state in which every field fits its kind |
| OrderWire.MemBlt | protocol/orders/decode.go:533-568 | main result: the written-out bytes of a memory blit, absolute and as deltas: for all field values, exactly these arrive, each in its place, and with deltas exactly the coordinates are stepped |
| OrderWire.Mem3Blt | protocol/orders/decode.go:777-829 | the written-out bytes of a memory blit with a pattern, absolute and as deltas: for all field values, exactly these arrive, each in its place, and with deltas exactly the coordinates are stepped |
| OrderWire.DstBlt | protocol/orders/decode.go:410-429 | the written-out bytes of a destination blit, absolute and as deltas: for all field values, exactly these arrive, each in its place, and with deltas exactly the coordinates are stepped |
| OrderWire.PatBlt | protocol/orders/decode.go:435-467 | the written-out bytes of a pattern blit, absolute and as deltas: for all field values, exactly these arrive, each in its place, and with deltas exactly the coordinates are stepped |
| OrderWire.ScrBlt | protocol/orders/decode.go:471-498 | the written-out bytes of a screen blit, absolute and as deltas: for all field values, exactly these arrive, each in its place, and with deltas exactly the coordinates are stepped |
| OrderWire.OpaqueRect | protocol/orders/decode.go:502-529 | the written-out bytes of an opaque rectangle, absolute and as deltas: for all field values, exactly these arrive, each in its place, and with deltas exactly the coordinates are stepped |
| OrderWire.LineTo | protocol/orders/decode.go:729-768 | the written-out bytes of a line, absolute and as deltas: for all field values, exactly these arrive, each in its place, and with deltas exactly the coordinates are stepped |
| OrderWire.SaveBitmap | protocol/orders/decode.go:1021-1047 | the written-out bytes of a desktop save, absolute and as deltas: for all field values, exactly these arrive, each in its place, and with deltas exactly the coordinates are stepped |
| OrderWire.FastIndex | protocol/orders/decode.go:663-722 | the written-out bytes of glyphs by index, absolute and as deltas: for all field values, exactly these arrive, each in its place, and with deltas exactly the coordinates are stepped |
| OrderWire.FastGlyph | protocol/orders/decode.go:663-722 | the written-out bytes of one glyph, absolute and as deltas: for all field values, exactly these arrive, each in its place, and with deltas exactly the coordinates are stepped |
| OrderWire.GlyphIndex | protocol/orders/decode.go:580-652 | the written-out bytes of glyphs with a brush, absolute and as deltas: for all field values, exactly these arrive, each in its place, and with deltas exactly the coordinates are stepped |
| OrderWire.Polyline | protocol/orders/decode.go:836-863 | the written-out bytes of a polyline, absolute and as deltas: for all field values, exactly these arrive, each in its place, and with deltas exactly the coordinates are stepped |
| OrderWire.PolygonSC | protocol/orders/decode.go:869-896 | the written-out bytes of a polygon in one colour, absolute and as deltas: for all field values, exactly these arrive, each in its place, and with deltas exactly the coordinates are stepped |
| OrderWire.PolygonCB | protocol/orders/decode.go:903-939 | the written-out bytes of a polygon with a brush, absolute and as deltas: for all field values, exactly these arrive, each in its place, and with deltas exactly the coordinates are stepped |
| OrderWire.EllipseSC | protocol/orders/decode.go:988-1015 | the written-out bytes of an ellipse in one colour, absolute and as deltas: for all field values, exactly these arrive, each in its place, and with deltas exactly the coordinates are stepped |
| OrderWire.EllipseCB | protocol/orders/decode.go:946-982 | the written-out bytes of an ellipse with a brush, absolute and as deltas: for all field values, exactly these arrive, each in its place, and with deltas exactly the coordinates are stepped |
| OrderWire.DrawBytes | protocol/orders/decode.go:11-152 | the frame of any drawing order, byte by byte: control byte, order type, flag bytes with those left out, one bit per field, bounds, fields |
| OrderWire.SecondaryBytes | protocol/orders/decode.go:156-179 | a secondary order byte by byte: its length less thirteen, flags, type and body |
| OrderWire.SkippedBytes | protocol/orders/decode.go:11-50 | any other order is passed over by the length behind its control byte |
| Orders.ReadStays | protocol/orders/decode.go:250-403 | every reader returns nothing or an offset between its start and the end of the data, and a value that fits |
| Orders.ReadFieldsStays | protocol/orders/decode.go:406-1047 | reading fields, also when cut short, leaves every field fitting and ends at -1 or inside the data |
| Orders.DecodeOneStays | protocol/orders/decode.go:16-151 | any data: one order leaves a good state and moves forward or stops; only a skipped order may point past the end |
| OrderDecoder.Decoder.DecodeOrders | protocol/orders/decode.go:11-152 | for any data and count, the object ends in the state and with the callbacks of the decoding function |
| OrderDecoder.Decoder.DecodePrimary | protocol/orders/decode.go:45-151 | type change, flags, bounds and fields in place, partial updates on a short read included |
| OrderDecoder.Decoder.ReadFieldsInto | protocol/orders/decode.go:406-1047 | the field loop updates the registers of its order type and no other |
| OrderDecoder.Decoder.ReadSidesInto | protocol/orders/decode.go:182-246 | the bounds are updated side by side, partially when the data ends |
| Rop.BitOpIsLookup | protocol/orders/draw.go:996-1009 | the eight masked minterms of a bit look up the operation code at pattern, source, destination |
| Rop.SpecialPixels | protocol/orders/draw.go:996-1009 | codes 00, FF, F0 and CC give black, white, the pattern and the source |
| Rop.ByteOpBits | protocol/orders/draw.go:996-1009 | bit i of the result of every operation code is the bit of the code at 4 p + 2 s + d, where p, s and d are the i-th bits of pattern, source and old byte |
| Shading.BodyIsShade | client.go:3571-3768 | every loop body an order may choose computes the same per-pixel operation |
| Shading.ShadeRowsAt | client.go:3716-3768 | the bottom-up loops shade exactly the pixels of the rectangle from their old values |
| Shading.RowsShown | client.go:3739-3779 | the buffer handed to the display holds the rectangle as it now stands |
| Shading.PaintRect | client.go:3571-3596 | the loops, all indices in range, compute the row-by-row shading of screen and display buffer |
| Blits.PatBltAt | client.go:3510-3779 | main result: for every rectangle, code, brush and clip, each pixel of the rectangle on the screen and in the clip becomes the operation on pattern and old pixel, except that the null brush paints only black and white; every other pixel stays |
| Blits.ClipOnlyRestricts | client.go:3354-3374 | painting a pattern under a clip is the unclipped painting restricted to the clip: the pattern does not shift |
| Blits.MemBltAt | client.go:3927-4070 | main result: a screen pixel changes if and only if it is in the rectangle, on the screen, in the clip and its source pixel is in the bitmap; it becomes the operation on the source at srcLeft + x - left, srcTop + y - top |
| Blits.Mem3BltAt | client.go:4264-4501 | the same with a pattern fixed to the screen |
| Blits.ClipOnlyRestrictsBlt | client.go:3987-3996 | a memory blit under a clip is the unclipped one restricted to the clip |
| Blits.PlaceIsIntersection | client.go:3949-3996 | the chain of clamps computes exactly the intersection of the rectangle with bitmap, screen and clip |
| Blits.PlaceKeepsOffset | client.go:3949-3996 | the clamps move source and destination together and stay inside both |
| Blits.LastIndexInRange | client.go:4021-4024 | the last index of a clamped rectangle of a bottom-up buffer is in range, so the bounds checks before the loops succeed |
| Blits.TargetIsIntersection | client.go:3515-3546 | the screen blits paint exactly the part of the rectangle on the screen and in the clip |
| Blits.PaintShown | client.go:3770-3779 | the rows given to the display callback are the painted screen |
| Blits.CopyIsOperation | client.go:4026-4060 | the plain copy equals the generic operation if and only if the source is opaque: they differ in the alpha byte only |
| Blits.OrdersAgreeIff | client.go:3510-4501 | over a white source the pattern blit and the memory blit with the same brush leave the same pixels, for every screen, rectangle, code, bitmap and clip, if and only if the brush is not the null brush and can be resolved or has two equal colours |
| Blits.PatBltBits | client.go:3510-3779 | main result: every bit of every channel of a painted pixel, looked up in the operation code by the bits of pattern and old pixel over a white source |
| Blits.MemBltBits | client.go:3927-4070 | main result: every bit of a copied pixel, by those of source and old pixel; the plain copy takes the source as it is |
| Blits.Mem3BltBits | client.go:4264-4501 | every bit of a copied pixel, by those of pattern, source and old pixel |
| Blits.MonoAt | client.go:4470-4490 | bit k of a row of a two-colour brush, counted from the left and from the brush origin: a set one is the background |
| Blits.SolidAt | client.go:4343-4380 | a solid brush is the foreground everywhere |
| Blits.GivenAt | client.go:4362-4368 | the rows of a brush sent with the order, in reverse |
| Blits.HatchedAt | client.go:4369-4376 | a hatched brush, place by place |
| Blits.HatchBits | protocol/orders/brushcache.go:5-12 | the six hatch patterns as lines: horizontal, vertical, two diagonals and two crosses |
| Blits.CachedBrushAt | client.go:4349-4361 | a cached brush: its own colours, or two colours by its bits |
| BlitOrders.Canvas.ExecutePatBlt | client.go:3510-3779 | the method on the pixel buffer, its seven branches, does what the blit function says; the display gets the rows of exactly the rectangle painted, and nothing where nothing is |
| BlitOrders.Canvas.ExecuteMemBlt | client.go:3927-4070 | the method on the pixel buffer does what the blit function says, and hands out the rows of the rectangle it painted |
| BlitOrders.Canvas.ExecuteMem3Blt | client.go:4264-4501 | the method on the pixel buffer does what the blit function says with its own brush resolution, and hands out the rows of the rectangle it painted |
| BlitOrders.Canvas.ClampBoth | client.go:3949-3985 | the interleaved clamp statements clamp either side on its own |
| DesktopSave.SaveDrawRestore | protocol/orders/desktopsave.go:18-95 | main result: after a save, any drawing and any saves into disjoint offset ranges, a restore gives the part of the area on the screen its saved pixels and changes nothing else; a save that does not fit is refused and so is its restore |
| DesktopSave.SaveRowsAt | protocol/orders/desktopsave.go:18-54 | each cache cell after a save: the pixel it stands for if that is on the screen, else its old value |
| DesktopSave.SaveRowsOutside | protocol/orders/desktopsave.go:18-54 | a save changes no cell outside its stretch |
| DesktopSave.RestoreRowsAt | protocol/orders/desktopsave.go:56-95 | each screen pixel after a restore |
| DesktopSave.OtherSavesKeep | protocol/orders/desktopsave.go:18-54 | saves into disjoint ranges leave a stretch alone |
| DesktopSave.SavesCell | protocol/orders/desktopsave.go:18-54 | cell by cell after a save: both edges belong to the area, rows from the top down, each cell the screen buffer pixel of its place or, off the screen, what it was |
| DesktopSave.RestoresCell | protocol/orders/desktopsave.go:58-95 | buffer index by buffer index after a restore: each place of the area on the screen holds its cell |
| DesktopSave.NothingElse | protocol/orders/desktopsave.go:18-95 | an area that is empty or does not fit is neither saved nor restored, and no place outside an area is restored |
| DesktopSave.Cache.SavePixels | protocol/orders/desktopsave.go:18-54 | the running-index loops compute the save |
| DesktopSave.Cache.RestorePixels | protocol/orders/desktopsave.go:56-95 | the running-index loops compute the restore and return the area, or the empty rectangle for a refused one |
| Ima.EncodeIsBest | protocol/audin/adpcm.go:120-138 | the nibble has the sign of the difference and the largest magnitude not above it |
| Ima.BestIsUnique | protocol/audin/adpcm.go:120-138 | there is one such nibble |
| Ima.NibbleTracks | protocol/audin/adpcm.go:139-159 | in range of the step the reconstruction is within an eighth of the step plus two, clamping included |
| Ima.DecoderTracks | protocol/audin/adpcm.go:110-228 | main result: at every sample of a stream that is within two steps of the decoder last output, the decoder next output is within an eighth of the step plus two of the sample |
| Ima.UnpackPack | protocol/audin/adpcm.go:219 | unpacking nibbles gives them back, with a zero nibble after an odd number |
| ImaDecoder.MonoRoundTrip | protocol/rdpsnd/adpcm.go:78-170 | main result: the playback decoder makes of a mono block its first sample and then the encoder reconstructed samples |
| ImaDecoder.StereoRoundTrip | protocol/rdpsnd/adpcm.go:173-316 | main result: the playback decoder makes of a stereo block the two first samples and then both channels interleaved; padding samples are not heard |
| ImaDecoder.StereoEndsIff | protocol/rdpsnd/adpcm.go:201-316 | the stereo decoding loop ends if and only if the data holds the samples asked for |
| ImaDecoder.OutputPrefix | protocol/audin/adpcm.go:52-453 | later samples do not change earlier output |
| ImaBlocks.EncodeMono | protocol/audin/adpcm.go:110-228 | fills the block exactly, the cursor ending at its end, and returns the step index that the decoder ends with |
| ImaBlocks.EncodeStereo | protocol/audin/adpcm.go:229-450 | fills header and chunks exactly, left and right in turn, and returns both step indices |
| ImaBlocks.HeaderRoundTrip | protocol/audin/adpcm.go:96-108 | the four header bytes give predictor and step index back |
| ImaBlocks.WeaveFront | protocol/audin/adpcm.go:235-445 | the chunks alternate four bytes of either channel |
| Ima.EncodeNibble | protocol/audin/adpcm.go:120-165 | the inlined nibble code encodes and then updates the state as the decoder does |
| Ima.DecodeNibble | protocol/rdpsnd/adpcm.go:100-130 | the decoder nibble update: predictor clamped to 16 bits, index to 0..88 |
| AdpcmNumbers.IndexMoves | protocol/rdpsnd/adpcm.go:22-25 | how far the index moves: down by one for magnitudes below four, else up by two, four, six or eight, within 0 and 88 |
| AdpcmNumbers.PredictorMoves | protocol/rdpsnd/adpcm.go:100-130 | how far the predictor moves, exactly: an eighth and by each bit a quarter, a half or a whole of the step, each rounded down, less than 17/8 below an odd number of eighths |
| AdpcmNumbers.StepsGrow | protocol/rdpsnd/adpcm.go:6-19 | the steps run from 7 to 31266, each a tenth above the one before up to rounding |
| AdpcmNumbers.StepsTotal | protocol/rdpsnd/adpcm.go:6-19 | the sums of the steps, eight by eight |
| AdpcmBytes.DecodedAt | protocol/rdpsnd/adpcm.go:100-130 | the k-th output is the predictor after nibble k, decoded where the nibbles before it left the channel |
| AdpcmBytes.EncodedAt | protocol/audin/adpcm.go:110-240 | sample k is encoded where the nibbles before it leave the decoder |
| AdpcmBytes.MonoBytes | protocol/audin/adpcm.go:60-240 | a mono block byte by byte: first sample low byte first, index, zero, two samples to a byte with the earlier one low, silence past the end |
| AdpcmBytes.StereoBytes | protocol/audin/adpcm.go:60-453 | a stereo block byte by byte: two headers, then four bytes of each side in turn, filled up with silence |
| AdpcmBytes.MonoDecodes | protocol/rdpsnd/adpcm.go:78-171 | what any mono block is decoded to: signed first word, an index cut to 88, its nibbles low half first, as many as are wanted and there |
| AdpcmBytes.StereoDecodes | protocol/rdpsnd/adpcm.go:175-305 | what any stereo block is decoded to, its last group cut short or not: both first words, and both sides nibbles interleaved |
| AdpcmBytes.InterleaveAt | protocol/rdpsnd/adpcm.go:285-300 | interleaved output holds sample k of the left side at 2k and of the right one behind it |
| ImaDecoder.DecodeMonoBlock | protocol/rdpsnd/adpcm.go:78-170 | the mono decoding loop |
| ImaDecoder.DecodeStereoBlock | protocol/rdpsnd/adpcm.go:173-316 | the stereo decoding loop; a pass that adds nothing is a call that does not return |
| MsAdpcm.DeltaStays | protocol/audin/adpcm.go:457-497 | the step stays in [16, 49152] whatever the sample |
| MsAdpcm.NoOverflow | protocol/audin/adpcm.go:457-497 | with the step in that range no product or sum leaves 32 bits |
| MsAdpcm.NibbleTracks | protocol/audin/adpcm.go:461-478 | a nibble that is not clamped reconstructs within less than one step |
| MsAdpcm.PredictBound | protocol/audin/adpcm.go:458 | the prediction of any coefficient pair and samples is bounded |
| AdpcmNumbers.PairsPredict | protocol/rdpsnd/adpcm.go:308-317 | the prediction of each of the seven pairs as a formula of the two last samples, rounded down |
| AdpcmNumbers.StepAdapts | protocol/rdpsnd/adpcm.go:28-31 | the step after each nibble: times 0.9 up to three, then 1.2, 1.6, 2, 2.4 and 3 whatever the sign, at least 16 |
| AdpcmNumbers.VoiceMoves | protocol/audin/adpcm.go:475-497 | the decoded sample is the prediction and so many steps, cut to 16 bits; it becomes the last sample and the last the one before |
| AdpcmNumbers.NibbleCounts | protocol/audin/adpcm.go:457-474 | the nibble is the number of whole steps in the prediction error, toward zero, cut to four bits |
| AdpcmNumbers.NoErrorIff | protocol/audin/adpcm.go:501-526 | a pair has no error if and only if it predicts every sample looked at |
| AdpcmNumbers.Chosen | protocol/audin/adpcm.go:501-526 | the choice looks at the first ten samples, and is pair 0 for fewer than three |
| AdpcmNumbers.FirstStep | protocol/audin/adpcm.go:530-550 | the first step is a quarter of the largest jump among the first 32 samples, at least 16 |
| MsStream.DeltasStay | protocol/audin/adpcm.go:620-651 | every step of every channel stays in range at every point of a stream |
| MsStream.DecoderTracks | protocol/audin/adpcm.go:620-651 | at every sample in range of the nibble the decoder output is within one step of it |
| MsDecoder.MsRoundTrip | protocol/rdpsnd/adpcm.go:354-494 | main result: the playback decoder makes of a block its two first samples per channel and then the encoder reconstructed samples, as many as were asked for or as the bytes hold |
| MsDecoder.MsTracks | protocol/audin/adpcm.go:558-660 | the whole of what is heard of a block: first samples exact, every later one within the step of its moment unless it jumped out of range, steps in [16, 49152] |
| MsBlocks.HeaderRoundTrip | protocol/audin/adpcm.go:584-618 | pair indices, steps and samples of one or two channels are read back from the header |
| MsBlocks.UnpackPackHigh | protocol/audin/adpcm.go:634-646 | signed nibbles packed high nibble first are read back |
| MsBytes.DecodedAt | protocol/rdpsnd/adpcm.go:415-494 | channels take turns: nibble k moves channel k modulo their number, and its new sample is the output |
| MsBytes.EncodedAt | protocol/audin/adpcm.go:634-660 | sample k is encoded for its channel where the nibbles before it leave the decoder |
| MsBytes.BlockBytes | protocol/audin/adpcm.go:558-660 | a whole block byte by byte: pair, step, second and first sample of every channel, two signed nibbles to a byte with the earlier one high, zeros to the end |
| MsBytes.BlockDecodes | protocol/rdpsnd/adpcm.go:354-494 | what any block is decoded to: pair indices above six taken as 0, signed words, first and second samples of all channels, and the nibbles high half first |
| MsChoice.BestPairIsBest | protocol/audin/adpcm.go:499-526 | the pair chosen has the least squared error over the window, the first of equals |
| MsChoice.ChooseCoefficient | protocol/audin/adpcm.go:499-526 | giving up early on a pair does not change the choice |
| MsChoice.InitialDelta | protocol/audin/adpcm.go:528-550 | the first step is in [16, 16383] and so fits its header field |
| MsChoice.ComputeInitialDelta | protocol/audin/adpcm.go:528-550 | the loop computes a quarter of the largest jump, at least 16 |
| MsCodec.EncodeMs | protocol/audin/adpcm.go:558-660 | fills the block: header, nibbles as far as asked and as they fit, zeros |
| MsDecoder.DecodeMsBlock | protocol/rdpsnd/adpcm.go:354-494 | the decoding loop with its channel turns |
| MsAdpcm.EncodeNibble | protocol/audin/adpcm.go:457-497 | division rounds toward zero, the shifts round down, the state is updated as by the decoder |
| Audin.SendsAreOne | protocol/audin/audin.go:450-534 | main result: any number of even-length calls do what one call with all the bytes does |
| Audin.FramesConserve | protocol/audin/audin.go:473-510 | conservation: every block is full, and blocks and remainder together are the samples |
| Audin.BlockMessages | protocol/audin/audin.go:476-499 | one announcement and one data message per block, in order, each block encoded from where the last left the encoder |
| Audin.RestIsShort | protocol/audin/audin.go:501-510 | less than one block waits |
| Audin.SendKeeps | protocol/audin/audin.go:450-534 | a call leaves less than one block waiting and the format alone |
| Audin.EndsIff | protocol/audin/audin.go:476-499 | whatever the samples, the block loop has less than a block left after some number of passes if and only if the format has channels and states at least one sample per block |
| Audin.PassesSuffice | protocol/audin/audin.go:476-499 | as many passes as there are samples compute what the loop sends |
| Audin.ComputedSizeEnds | protocol/audin/audin.go:556-598 | without extra data the loop ends for every format with channels |
| Audin.ImaBlockSize | protocol/audin/audin.go:556-598 | without extra data an IMA block has the announced size always in mono, in stereo if and only if that size is whole chunks |
| Audin.MsBlockFull | protocol/audin/audin.go:556-598 | without extra data an MS block holds exactly the nibbles asked for, with no byte left over |
| AudinSends.SamplesRead | protocol/audin/audin.go:450-462 | samples are two bytes each, low byte first and signed; an odd last byte is dropped |
| AudinSends.BlockHolds | protocol/audin/audin.go:557-592 | the samples of a block for one or two channels as a number: the two bytes of extra data, or 2n - 7, (n - 8) / 8 * 8 + 1, 2n - 12 or n - 12 of its size n |
| AudinSends.EmptyBlocks | protocol/audin/adpcm.go:60-62 | other channel counts, and MS blocks too short for their header, give empty blocks and leave the indices alone |
| AudinSends.PcmSent | protocol/audin/audin.go:424-447 | PCM is sent as it comes, in two messages; nothing happens while not recording or without sound |
| AudinSends.BlocksSent | protocol/audin/audin.go:450-534 | other sound is added to what waits: the blocks of both are sent and the rest waits |
| AudinSends.MonoCarries | protocol/audin/audin.go:476-499 | the next mono block starts with the index where the samples of the last one left it |
| AudinSends.StereoCarries | protocol/audin/audin.go:476-499 | the next stereo block starts with both indices, the silence that fills the last group counted |
| Audin.MonoHeard | protocol/audin/audin.go:473-499 | a listener hears of the k-th mono block its samples as encoded, without padding between blocks |
| Audin.StereoHeard | protocol/audin/audin.go:473-499 | of the k-th stereo block its first pair and then both channels as encoded, interleaved as in the frame, without padding |
| Audin.MsHeard | protocol/audin/audin.go:473-499 | of the k-th MS block its first samples as they are and then the samples that its bytes hold as encoded |
| Audin.Handler.SendAudioData | protocol/audin/audin.go:450-534 | for any bytes, pending samples, encoder state and messages are those of the send function |
| Audin.Handler.EncodeIMAADPCM | protocol/audin/adpcm.go:52-95 | allocates the block, encodes one or two channels, carries the step indices; other channel counts give an empty block |
| NsPlane.PlaneRoundTrip | protocol/nscodec/nscodec.go:117-206 | main result: any well-formed encoding followed by the last four bytes decodes to the plane if and only if it is not as long as the plane, or is the plane |
| NsPlane.CodeTakenForPlane | protocol/nscodec/nscodec.go:123-126 | such an encoding exists: the code of a run of two and a run of four is as long as its plane and is decoded to itself |
| NsPlane.ExpandCodes | protocol/nscodec/nscodec.go:146-188 | expanding the codes of literals and runs, short and long, gives their meaning cut to the room |
| NsPlane.NothingStaleIff | protocol/nscodec/nscodec.go:117-206 | the result does not depend on what the reused buffer held, except for planes of one to three bytes with longer data |
| NsPlane.DecodePlaneRLE | protocol/nscodec/nscodec.go:117-206 | for every input the loop fills the plane as the code semantics says or reports truncation |
| NsPlane.FillDoubling | protocol/nscodec/nscodec.go:174-181 | filling by doubling copies is a constant fill and changes nothing else |
| NsPlane.ShortRun | protocol/nscodec/nscodec.go:146-188 | a byte twice and a third below 255 stand for the third and two copies, as far as there is room |
| NsPlane.LongRun | protocol/nscodec/nscodec.go:146-188 | a byte twice and 255 stand for as many copies as the next four bytes say, low byte first |
| NsPlane.Singles | protocol/nscodec/nscodec.go:146-188 | a byte not followed by itself stands for itself, nothing comes after the room or the data, and a cut-off length is an error |
| NsPlane.PlaneAt | protocol/nscodec/nscodec.go:117-206 | every byte of a decoded plane for any data: none, raw, too short, and codes with zeros and the last four bytes behind them |
| NsColor.ConvertSubsampled | protocol/nscodec/nscodec.go:235-263 | main result: converting with subsampled chroma is converting directly with every chroma sample repeated for its two by two pixels |
| NsColor.ConvertDirect | protocol/nscodec/nscodec.go:209-232 | the direct loop converts every pixel |
| NsColor.ClampByteClamps | protocol/nscodec/nscodec.go:266-274 | the bit test and shift clamp to [0, 255] |
| NsColor.ChromaMeans | protocol/nscodec/nscodec.go:209-225 | the chroma value is the byte times 1, 2, 4 up to 128 by the level, cut to a signed byte, and nothing at level zero or above eight |
| NsColor.PixelMeans | protocol/nscodec/nscodec.go:217-231 | red, green and blue of a pixel as sums of luma and both chroma values, cut to a byte |
| NsColor.SubsampledAt | protocol/nscodec/nscodec.go:235-263 | pixel (x, y) of a subsampled image from its own luma and alpha and the chroma at y / 2 * ((width + 1) / 2) + x / 2 |
| NsColor.SumsFit | protocol/nscodec/nscodec.go:217-225 | no sum leaves 16 bits |
| NsColor.ColorRecovers | protocol/nscodec/nscodec.go:217-231 | where nothing is clamped the pixel determines luma and both chroma values |
| NsColor.ChromaInRange | protocol/nscodec/nscodec.go:237-253 | every chroma index is in range |
| VBars.SlotHoldsLatest | protocol/clearcodec/clearcodec.go:275-390 | main result: after any codes and cursor resets, a slot of either ring holds the column last inserted there; without insertions it holds what it held, or, in the full ring, a blank column where nothing was |
| VBars.UntouchedIff | protocol/clearcodec/clearcodec.go:104-108 | a slot is not written if and only if the insertions before the first reset do not come round to it, nor those after any reset from the start of the ring |
| VBars.RingKeeps | protocol/clearcodec/clearcodec.go:375-390 | a cached column, full or short, can be referred to until its ring has come round to it, or started again and come so far |
| VBars.InsertedStays | protocol/clearcodec/clearcodec.go:375-390 | the full column just inserted survives 32767 further insertions and the short one 16383, as far as resets do not lead back to it |
| VBars.ColumnRows | protocol/clearcodec/clearcodec.go:445-459 | row r of the column of every code: short pixel r - yOn from row yOn on, the background above and below; a cached column as stored; nothing where none was |
| VBarBytes.CodeStores | protocol/clearcodec/clearcodec.go:275-390 | what every code does to both rings, of 32768 and 16384 slots, slot and cursor |
| VBars.CursorCounts | protocol/clearcodec/clearcodec.go:389 | without a reset either cursor is the number of insertions around its ring |
| VBars.CursorRestarts | protocol/clearcodec/clearcodec.go:104-108 | a reset makes a cursor forget all insertions before it |
| VBars.CursorsMove | protocol/clearcodec/clearcodec.go:275-390 | the two cursors of a run are those of their rings |
| VBarDecoder.Decoder.ResetCursors | protocol/clearcodec/clearcodec.go:104-108 | both cursors go home, the entries stay |
| VBarBands.BandsRoundTrip | protocol/clearcodec/clearcodec.go:246-422 | decoding the bytes of any bands does to caches and image what their codes mean |
| VBarBands.CodeRoundTrip | protocol/clearcodec/clearcodec.go:275-373 | each of the three column codes is read back |
| VBarBands.BandAt | protocol/clearcodec/clearcodec.go:392-419 | a band paints its columns where they belong, as far down as each is long, and nothing else |
| VBarBands.BandShows | protocol/clearcodec/clearcodec.go:246-422 | a band inside the image whose columns have its height appears whole |
| VBarBands.BandPixel | protocol/clearcodec/clearcodec.go:246-422 | main result: pixel (x, yStart + r) of the image after the bytes of a band inside it, from the code of its column and the caches before it, row by row |
| VBarBands.OneColumn | protocol/clearcodec/clearcodec.go:246-422 | the bytes of a band of one column of short pixels, written out: every pixel of the image column |
| VBarBytes.CodeReads | protocol/clearcodec/clearcodec.go:275-373 | what any bytes are read as: from 32768 on a full hit, from 16384 on a short hit, else a miss with its rows and pixels; whatever is cut off is bad |
| VBarBytes.HeaderSays | protocol/clearcodec/clearcodec.go:252-273 | what any eleven bytes say of a band, and which bands are refused |
| VBarBytes.BadCodeStops | protocol/clearcodec/clearcodec.go:275-373 | a bad code fails the layer with the columns before it painted |
| VBarBytes.BadBandStops | protocol/clearcodec/clearcodec.go:246-422 | good bands before a bad header, or before a band with a bad code, are painted and the layer fails |
| VBarDecoder.Construct | protocol/clearcodec/clearcodec.go:426-471 | every row of the reused scratch buffer is overwritten, so nothing stale enters a column |
| VBarDecoder.Ring.Put | protocol/clearcodec/clearcodec.go:375-390 | overwriting a slot in place changes that slot and no other |
| VBarDecoder.Ring.Insert | protocol/clearcodec/clearcodec.go:375-390 | stores at the cursor and advances it around the ring |
| VBarDecoder.Decoder.Column | protocol/clearcodec/clearcodec.go:275-390 | each code on the buffers does what it means; scratch buffer and caches never share pixels |
| VBarDecoder.Decoder.DecodeBandLayer | protocol/clearcodec/clearcodec.go:246-422 | for any bytes, caches, image and error are those of the decoding function |
| VBarDecoder.Paint | protocol/clearcodec/clearcodec.go:392-419 | painting a column touches the image only |
| RlexDecoder.RlexRoundTrip | protocol/clearcodec/clearcodec.go:574-688 | main result: palette and entries that fit the rectangle paint their pixels row after row inside it and nothing outside |
| RlexDecoder.PaintFromAt | protocol/clearcodec/clearcodec.go:644-684 | the n-th pixel lands at the n-th place of the rectangle, every other pixel stays |
| RlexDecoder.StandsIsDivision | protocol/clearcodec/clearcodec.go:652-657 | the running column and row are the pixel count modulo and divided by the width |
| RlexDecoder.DecodeRLEX | protocol/clearcodec/clearcodec.go:574-688 | for any bytes the loops paint the decoded pixels and report the error cases; the sweep never leaves the palette |
| Rlex.EntriesRoundTrip | protocol/clearcodec/clearcodec.go:604-686 | entries that fit decode to run and sweep of the palette, one after the other |
| Rlex.IndexBitsFit | protocol/clearcodec/clearcodec.go:597-598 | the bits of an index suffice for the palette and are at most seven |
| Rlex.LengthRoundTrip | protocol/clearcodec/clearcodec.go:618-632 | lengths of one, two and four bytes are read back |
| RlexBytes.DataPaints | protocol/clearcodec/clearcodec.go:574-688 | main result: for any entries behind any palette, written out, every pixel of the image: the y * width + x-th decoded one inside the rectangle, else the old one |
| RlexBytes.EntryPaints | protocol/clearcodec/clearcodec.go:604-686 | what one entry paints, from its byte and its length in any form: the run, the sweep from start to stop, and each error with what was painted before it |
| RlexBytes.EntriesStop | protocol/clearcodec/clearcodec.go:600-632 | the end of the data or of the room is no error, an entry that is cut off is one |
| RlexBytes.PaletteReads | protocol/clearcodec/clearcodec.go:585-594 | three bytes a colour, blue, green, red, all opaque |
| RlexBytes.NoPalette | protocol/clearcodec/clearcodec.go:575-588 | without one to 127 whole colours nothing is painted |

## Left out

- Sockets, TLS, timers, logging, goroutine plumbing and send errors: bytes are sequences, and a
  send appends to a log and succeeds.
- StaticChannel.Client.SendChannelData: writes the chunks of one channel; encryption, MCS framing,
  the lookup of channels by name and write errors are left out.
- Dvc.Handler.ProcessPDU: the capability exchange and the create response's bytes are left out;
  creation is a policy that admits or rejects.
- Byte-level field parsing of graphics pipeline commands, their codecs (RemoteFX, planar, zgfx,
  progressive, H.264) and the frame acknowledge: commands arrive decoded.
- EgfxHandler.Handler.EmitBitmapRect: the contiguous copy of the pixels that an older callback gets
  is left out.
- EgfxHandler.Handler.HandleEndFrame: the frame acknowledge and deferred video frames are left out.
- Scaled output mapping and surface dumps.
- Graphics surfaces are modelled in whole pixels: a surface buffer whose length is not a multiple
  of four does not occur.
- EgfxCoherence.Coherence: assumes what the display needs, painted areas that do not run past the
  right edge, mapped surfaces that do not overlap and start on the screen, and no nested frame;
  EgfxOverrun and EgfxFrames say exactly which pixels go wrong past the edge, EgfxPictures with
  UnmappedSurfaceCovers and NestedFrameForgets what happens otherwise.
- EgfxFrames.FrameRightIff: the frame draws and uses the cache; surfaces are made, mapped and
  removed between frames.
- MppcReplay.ExpandReplays: its tokens are valid for the window; MppcReplay.MatchIndexIntended says
  exactly when a match is.
- Mppc.ReadToken: the token reader is a method of its own; in the program it and the history writes
  share one loop.
- Ima.EncodeNibble: the program repeats this code inline six times.
- OrderDecoder.Decoder.ReadFieldsInto: the sixteen hand-written field lists of the program are one
  table, Orders.Schema, walked by one loop; the 32 field flags are a sequence of bits, low bit first.
- BlitOrders.Canvas.ExecutePatBlt: the program's seven loops differ only in the pixel they store;
  here one loop takes the choice as Shading.Path. The colour conversion by colour depth is an input.
- Audin.Handler.SendAudioData: requires a format for which the loop ends; Audin.EndsIff says which.
  For the others the program's loop goes on for ever, which no terminating method can model.
- Audin.SendsAreOne: for calls of even length, as the last byte of an odd one is dropped.
- ImaBlocks.EncodeMono and ImaBlocks.EncodeStereo: the block buffer is allocated to size instead of
  being resliced from a larger reused one.
- ImaDecoder.DecodeMonoBlock: decodes one block; the loop over the blocks of one message and the
  reused output buffer are not modelled. It requires a sample per block: without one the program's
  buffer has no room for the first sample and its index fails.
- NsColor.ConvertDirect: an empty image, on which the program's bounds check fails, is converted to
  an empty one.
- NSCodec's header, ClearCodec's header, sequence number, glyph cache, residual layer and raw
  subcodec: framing of the parts modelled.
- VBarDecoder.Decoder: slots that were never written are absent instead of having no pixels.
- DstBlt, ScrBlt, lines, polygons, ellipses, glyphs and the bitmap cache's decoding.
- WriteRect, ReadRect, CopyRect, BlendRect, palette and 16-bit framebuffer access.
- Lifecycle.Safety: covers one user Connect; sleeping, waiting for the receive loop and what the
  callbacks do are not modelled.
- Negotiation, capabilities, licensing, NTLM and CredSSP, clipboard, drive redirection, and all user
  interface code.
