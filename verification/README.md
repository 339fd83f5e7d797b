# gliff, modelled in Dafny

gliff streams a remote desktop: a server captures an output, encodes it as one
or two H.264 streams, and sends frames, cursor and clipboard messages over one
framed connection; a client decodes and shows them. This project models the
parts of it whose correctness is more than local, one module per component,
and proves what they promise.

- **Framing** (`Framing`, `Reading`, `Writing`, `FramedSession`): the framed
  wire reader and writer, with every chunking of the bytes, every cancellation
  point and every partial write.
- **H.264** (`AnnexB`, `H264`, `RefLists`, `RefListStandard`, `PictureOrder`,
  `Dpb`, `H264Decoding`, `H264Encoding`, `Lockstep`): start codes, picture
  order counts, the decoded picture buffer, reference lists against the text of
  ITU-T H.264, and encoder and decoder together over unbounded runs.
- **Stream and client** (`SendQueue`, `Writer`, `Levels`, `Extent`,
  `ServerSession`, `ClientLoop`, `Connection`): the coalescing send queue, the
  session's and the client's geometry, and both ends joined by the queue.
- **Rate** (`Link`, `RateControl`, `QualityLadder`): what the link delivers,
  the bitrate target and the quality levels.
- **Clipboard** (`Clipboard`, `Utf8`, `UriLists`): windowed transfers between
  two peers, and the lists of file URIs.
- **Pixels** (`Colour`, `Rows`, `Avx2`, `Chroma`, `ChromaPlanes`): fixed-point
  BT.709, the AVX2 kernels against the scalar loops, and the split of 4:4:4
  into two 4:2:0 frames.

The form follows the source: what the source updates in place is a class whose
methods are proved against functions and predicates on values, with ghost
histories where a claim is about a whole run; what it computes is a function.
`Common` and `Arithmetic` hold what several modules share.

What the environment decides is a parameter or an arbitrary choice: how bytes
arrive and are accepted, where a call is cancelled (`mayAbandon`), whether a
stream stays usable (`healthy`), whether an encoder takes a geometry
(`accepts`) or a picture is ready, whether the UI takes it, and the clock.
Integers are unbounded except where a cast or a wrap is written out; floating
point is `real` with the source's floors, rounds and saturating casts, and
`Instant` is a nondecreasing `real`.

Four results are differences between the code and what it is documented or
expected to do, each with its exact condition or input:

- the decoder's reference list equals the standard's if and only if the
  modifications name no picture twice (`RefListStandard`);
- the controller is documented to return a reason when the target changed; at
  its ceiling it also returns one when it did not. It does so exactly when
  `TracksInPlace` holds of the state before the ack
  (`RateControl.ReportsInPlaceExactlyAtTheCeiling`,
  `RateControl.RateController.OnAck`), and
  `RateControl.AnUnchangedTargetIsReported` runs into such an ack;
- malformed lines of a `text/uri-list` are documented to be skipped; one whose
  path holds an escape with a plus sign for its first digit, or a raw byte that
  may stand in a path only as an escape, is read all the same. A list is read
  as documented exactly when no line of it that is read is of these kinds
  (`UriLists.ListReadAsPromisedExactlyIfWellFormed`);
  `UriLists.APlusPassesForADigit` and `UriLists.ABlankPassesForAnEscape` give
  bodies that are not;
- fitting a size to the encoder is documented to give an even size; it does so
  exactly when the size does not fit or is even itself (`Extent.FittedIsTaken`),
  and `Extent.AnOddSizeIsKept` is one that is neither.

`dafny verify dfyconfig.toml` checks the project.

## Model

| member | source | states |
|---|---|---|
| Framing.ReadingUndoesWriting | crates/gliff-transport/src/lib.rs:92-166 | For every list of frames the writer accepts, reading their bytes behind any payload still to be skipped gives what the frames say: the first known message with its payload length and the bytes behind it, or the error of the first undecodable body, or the end. No limit error is possible. |
| Framing.OneReadTakesTheFirstKnown | crates/gliff-transport/src/lib.rs:130-166 | A read of such a stream takes exactly the first message that is known, whatever unknown ones come before, and stands in front of its payload and the frames behind; without one the only errors are the end and an undecodable body. |
| Framing.LengthsSurviveTheHeader | crates/gliff-transport/src/lib.rs:109-111 | A length below 2^32 written as four little-endian bytes is read back as itself. |
| Framing.HeaderOfFrame | crates/gliff-transport/src/lib.rs:109-147 | Parsing the header written for a frame gives its body length and its payload length, in that order. |
| Framing.DiscardEarly | crates/gliff-transport/src/lib.rs:184-194 | Discarding any part of the bytes to be skipped, early or late, leaves the next message the same. |
| Reading.TakingEarly | crates/gliff-transport/src/lib.rs:169-182 | Payload bytes the caller takes would otherwise be skipped: what lies ahead of the reader is the same. |
| Reading.FramedReader.ReadExactBytes | crates/gliff-transport/src/lib.rs:196-205 | Returns exactly the next n bytes of the stream however they arrive; when abandoned at any wait no byte is lost; fails only when fewer than n bytes are left before the end. |
| Reading.FramedReader.DiscardSkipped | crates/gliff-transport/src/lib.rs:184-194 | Never changes which message comes next, in whatever pieces the bytes come and wherever it is abandoned; done exactly when nothing is left to skip. |
| Reading.FramedReader.ReadHeader | crates/gliff-transport/src/lib.rs:133-153 | A header, read or kept from an abandoned call, is the one of the next frame; its limit errors are exactly the errors ahead. |
| Reading.FramedReader.ReadBody | crates/gliff-transport/src/lib.rs:154-164 | The body of the pending header decides the next message: known, skipped whole with its payload, or undecodable. |
| Reading.FramedReader.ReadMsg | crates/gliff-transport/src/lib.rs:130-166 | Returns the message that lies ahead in the byte stream, or its error; a call abandoned at any wait leaves the message ahead unchanged, so the next call returns it; terminates. |
| Reading.FramedReader.ReadPayload | crates/gliff-transport/src/lib.rs:169-182 | Refuses exactly a length over the limit or over what is left, changing nothing; otherwise returns exactly the next bytes, and the message ahead stays the same. |
| Writing.RemainderIsTheUnwrittenBytes | crates/gliff-transport/src/lib.rs:228-237 | The slices rebuilt after `done` bytes were accepted join up to exactly the bytes not written yet. |
| Writing.FramedWriter.WriteAllVectored | crates/gliff-transport/src/lib.rs:223-245 | Ends under any partial writes, having emitted exactly the parts in order; when the stream breaks, a prefix of them. |
| Writing.WriterRefusesWhatTheReaderWould | crates/gliff-transport/src/lib.rs:98-108 | The writer refuses a message if and only if the body, the whole payload or one payload slice is over its limit: everything it sends the reader accepts. |
| Writing.FramedWriter.WriteMsgWithPayloads | crates/gliff-transport/src/lib.rs:92-119 | A refused message writes nothing and is refused for the first limit it breaks; a written one adds exactly one frame, so the bytes out are always the encoding of the frames sent. |
| FramedSession.Receiver.TakeMessage | crates/gliff-transport/src/lib.rs:130-166 | Between any reads of payload, a message request hands over the next known message and its payload to be read; without one it fails with the error the stream ends on; abandoned, it hands over nothing and gives up what was left of the payload before it. |
| FramedSession.Receiver.TakePayload | crates/gliff-transport/src/lib.rs:169-182 | A payload request that is not abandoned gives exactly the next bytes of the payload of the last message, and is refused exactly for a length over the limit or over what is left of that payload, which is the payload less what was read or given up. |
| FramedSession.Serve | crates/gliff-transport/src/lib.rs:130-206 | Over every run of message and payload requests, each abandoned or not at every wait, and every cutting of the bytes: log, rest and error are those of the session played on the messages alone, so the messages come in order, each once, each with the next bytes of its own payload. An error comes exactly on a message request when none is left, as the stream ends, or on a payload request over the limit or over what was left then; without one every patient message request delivered a message. |
| FramedSession.WhereASessionEnds | crates/gliff-transport/src/lib.rs:130-182 | An error is that of one request, the first to find no message left or to ask for payload over the limit or over what is left; nothing follows it. |
| FramedSession.PatientSessions | crates/gliff-transport/src/lib.rs:130-206 | In a session without an error each message request that was not abandoned handed one over; if no message request was abandoned, what was read of the last payload and what is left of it are the whole of it. |
| FramedSession.ServeWritten | crates/gliff-transport/src/lib.rs:92-206 | The same contract with the writer at the other end: the session is the one played on what the writer sent, and the reader finds the end exactly when everything was delivered. |
| AnnexB.NalUnits | crates/gliff-va/src/h264/annexb.rs:18-48 | The two-pass scan (all start codes, then cutting and trimming) finds the same units as taking, from each start code, the bytes up to the next one without the zeros at their end, and dropping the empty ones. |
| AnnexB.EveryUnitIsClean | crates/gliff-va/src/h264/annexb.rs:33-46 | Whatever the input, every unit is non-empty, holds no start code, does not end in a zero, and carries the type and reference indication of its first byte. |
| AnnexB.SplittingUndoesFraming | crates/gliff-va/src/h264/annexb.rs:18-48 | For every list of non-empty units behind start codes with any number of leading zeros and any trailing zeros, splitting gives back exactly those units if and only if none of them holds a start code or ends in a zero. |
| AnnexB.CleanUnitsReadBack | crates/gliff-va/src/h264/annexb.rs:18-48 | The cuts of such a stream are the units themselves, byte for byte. |
| PictureOrder.NearestIsUnique | crates/gliff-va/src/decoder.rs:517-530 | At most one picture order count has the given low bits and lies within half a cycle of the anchor (section 8.2.1.1 of ITU-T H.264). |
| PictureOrder.LowBitsSufficeExactlyNearby | crates/gliff-va/src/decoder.rs:517-530 | The count derived from the low bits is the true one if and only if the true one lies within half a cycle of the last reference picture. |
| PictureOrder.PocState.Derive | crates/gliff-va/src/decoder.rs:514-557 | Type 0 gives the count nearest to the last reference picture with the coded low bits and moves the anchor only for references; type 2 gives twice the unwrapped frame number, less one for a picture that is not a reference; type 1 is refused. |
| PictureOrder.PocState.DeriveFromLsb | crates/gliff-va/src/decoder.rs:517-536 | The branch on the wrap of the low bits picks that nearest count. |
| PictureOrder.AFailedPictureKeepsTypeZero | crates/gliff-va/src/decoder.rs:157-245 | With type 0 the pictures behind a failed one find the state a decoded one would have left. |
| PictureOrder.AFailedPictureMisleadsTypeTwo | crates/gliff-va/src/decoder.rs:157-245 | With type 2, all pictures behind a failed one up to the next IDR picture or operation 5 are counted as if it had been decoded if and only if the next frame number is below the failed one's and below the one before that alike; else they are all one cycle of `frame_num` off. |
| PictureOrder.AFailedWrapIsCountedTwice | crates/gliff-va/src/decoder.rs:537-552 | In a gap-free stream that is when the failed picture wrapped: the wrap is then counted twice. |
| Dpb.EvictOldest | crates/gliff-va/src/decoder.rs:570-586 | Frees exactly the slot whose picture has the smallest FrameNumWrap, the first such in slot order, and nothing when none is held. |
| Dpb.SlidingWindow | crates/gliff-va/src/decoder.rs:562-567 | Keeps at most the allowed number of pictures and never releases a picture that is newer than one it keeps. |
| Dpb.ApplyMmco | crates/gliff-va/src/decoder.rs:591-625 | Succeeds exactly when every operation is 1 or 5; the operations up to the first other one are carried out even when it fails: a list of operation 1 frees exactly the pictures it names, and with an operation 5 nothing is held. |
| Dpb.WrapCountsBack | crates/gliff-va/src/decoder.rs:571-577 | FrameNumWrap counts back one per picture from the current one, across a wrap of `frame_num`, for fewer than MaxFrameNum pictures. |
| Dpb.OldestIsTheLowestNumber | crates/gliff-va/src/decoder.rs:570-586 | In a gap-free stream the slot evicted is that of the picture decoded longest ago, also across a wrap. |
| Dpb.TheWindowKeepsTheMostRecent | crates/gliff-va/src/decoder.rs:560-567 | After each reference picture of a gap-free stream the slots hold exactly the most recent max(max_num_ref_frames, 1) reference pictures since the last IDR picture, the current one among them (section 8.2.5.3). |
| Dpb.HeldRefsAreTheHeldPictures | crates/gliff-va/src/decoder.rs:181-186 | The references handed to the list builder are exactly the held pictures, in slot order. |
| Dpb.InitialListIsNewestFirst | crates/gliff-va/src/decoder.rs:419-420 | Sorting the held pictures by descending PicNum lists them newest first, whatever slots they are in and across a wrap (section 8.2.4.2.1). |
| RefLists.RefList0 | crates/gliff-va/src/decoder.rs:403-445 | The edits of the local list compute the sorted, modified, truncated list, and an error exactly when a modification is for long-term pictures or names a picture that is not listed. |
| RefLists.SortIsAnOrderedPermutation | crates/gliff-va/src/decoder.rs:420 | The sort is a permutation in descending PicNum order. |
| RefLists.OrderIsUnique | crates/gliff-va/src/decoder.rs:420 | With distinct picture numbers there is only one such order. |
| RefLists.PredictionFollowsTheStandard | crates/gliff-va/src/decoder.rs:421-433 | The running prediction modulo MaxFrameNum is picNumLXNoWrap of equations 8-34 and 8-35. |
| RefListStandard.DecoderMovesTheStandardPictures | crates/gliff-va/src/decoder.rs:422-444 | The modifications name the pictures the equations of section 8.2.4.3.1 name. |
| RefListStandard.OneStepAgrees | crates/gliff-va/src/decoder.rs:442-443 | One remove-and-insert gives the list of one shift, insertion and compaction of section 8.2.4.3.1, cut at the active count. |
| RefListStandard.AllStepsAgree | crates/gliff-va/src/decoder.rs:422-445 | So do any number of steps that name distinct pictures. |
| RefListStandard.TheListsAgreeExactlyWithoutRepeats | crates/gliff-va/src/decoder.rs:419-445 | For any initial list of distinct pictures and modifications that name listed ones, at most as many as the active count: the decoder's list is the standard's if and only if no picture is named twice. The initial list may be shorter than the active count. |
| RefListStandard.DecoderListIsTheStandardList | crates/gliff-va/src/decoder.rs:403-456 | The same for the list of a slice header as the decoder builds it. |
| RefListStandard.ARepeatedPictureIsLost | crates/gliff-va/src/decoder.rs:439-445 | A header that names one picture twice, which the standard lists twice, and the decoder once. |
| H264Decoding.H264Decoder.OpenStream | crates/gliff-va/src/decoder.rs:248-282 | New parameter sets start with every slot free, one slot more than the references, and the order state reset. |
| H264Decoding.H264Decoder.ChooseSlot | crates/gliff-va/src/decoder.rs:158-179 | An IDR picture frees all slots; a reference gets the lowest free slot, evicting exactly the oldest picture only when all are held; other pictures get none. |
| H264Decoding.H264Decoder.Mark | crates/gliff-va/src/decoder.rs:219-230 | The stored picture and its marking: the sliding window, or exactly the operations of its header, refused exactly when one is a long-term operation. |
| H264Decoding.H264Decoder.DeriveOrder | crates/gliff-va/src/decoder.rs:157 | In a gap-free stream the order count is right with respect to the reference pictures decoded so far, for types 0 and 2. |
| H264Decoding.H264Decoder.Advance | crates/gliff-va/src/decoder.rs:231-244 | The next picture counts from this one, or from zero after an operation 5. |
| H264Decoding.H264Decoder.Decode | crates/gliff-va/src/decoder.rs:105-246 | The first matching refusal for each unsupported header. For any picture: the slots go from before, through those its lists are taken from, to those behind its marking. A picture that fails behind the derivation of its count leaves the last output and the last frame number, but the reference count of type 0 and the wraps of type 2 have moved as for a decoded one; the slots are as they were, made ready, or marked up to the refused operation, by what failed. On a gap-free stream without marking operations, from any state when the picture is a keyframe: every slice gets the list of the most recent references newest first and modified, the surface is never one a live reference is in, the slots afterwards hold exactly the most recent references, and a picture the driver takes fails only when a list names a picture not held. |
| H264Decoding.AFreeSlotIsNotLive | crates/gliff-va/src/decoder.rs:164-180 | A free slot, or the spare surface, holds no picture the stream may still refer to. |
| H264Decoding.ReadyForThePicture | crates/gliff-va/src/decoder.rs:159-176 | Before each picture of a gap-free stream there is a free slot, so nothing is evicted to make room. |
| H264Decoding.AfterThePicture | crates/gliff-va/src/decoder.rs:219-230 | Storing the picture and sliding the window keeps exactly the most recent references. |
| H264Decoding.ListsAreNewestFirst | crates/gliff-va/src/decoder.rs:403-456 | In a gap-free stream the list of a slice is the modified newest-first list. |
| H264Encoding.H264Encoder.Submit | crates/gliff-va/src/encoder.rs:180-279 | Picture n since the keyframe has frame number and order low bits n modulo 2^16, goes to slot n mod 2, never its reference's, and predicts from picture n - 1; a forced, first or reference-less picture is an IDR picture with the next idr_pic_id. When the driver fails no number is used up and no slot is touched, but a failed IDR picture has given up the reference and used its idr_pic_id. |
| H264Encoding.EncoderSpsCounters | crates/gliff-va/src/encoder.rs:501-516 | The parameter sets written have one reference and 16-bit counters. |
| Lockstep.HeadersAreGapFree | crates/gliff-va/src/encoder.rs:230-239 | Every header the encoder writes continues a gap-free stream for the decoder. |
| Lockstep.ListIsTheLastPicture | crates/gliff-va/src/decoder.rs:403-456 | On such a header list 0 is exactly the last picture, as the encoder used it. |
| Lockstep.OrderIsTheNumber | crates/gliff-va/src/decoder.rs:514-536 | The order count rebuilt from 16 bits is the encoder's unbounded count. |
| Lockstep.SlotIsTheOther | crates/gliff-va/src/decoder.rs:164-180 | The decoder's slot is the encoder's setup slot. |
| Lockstep.Pair.Send | crates/gliff-va/src/encoder.rs:180-279 | One submission, taken by the driver or not, and the decoding of its header keep both ends in step. |
| Lockstep.Pair.Run | crates/gliff-va/src/decoder.rs:105-246 | For every sequence of submissions, forced or not, taken by the driver or not: each picture is shown with the order count the encoder gave it, the number of pictures encoded since the last keyframe asked for, across every wrap of the low bits and of the frame number, and each P frame's list 0 is exactly the one picture the encoder predicted from. |
| SendQueue.PushKeepsTheView | crates/gliff-server/src/writer.rs:33-71 | For every queue and message, dropping what the push supersedes leaves a client that reads the queue in the same state, having shown and received the same, with every decoder reset still ahead of the frame it was ahead of or gone. |
| SendQueue.PushKeepsTidy | crates/gliff-server/src/writer.rs:33-71 | At most one frame, one configuration ahead of it and one behind, one shape, one position and one pong are ever queued, and no position ahead of a shape. |
| SendQueue.TidyIsShort | crates/gliff-server/src/writer.rs:16-21 | At most six messages are queued besides clipboard ones. |
| Writer.TheLogOfAStream | crates/gliff/src/net.rs:553-677 | A client shows and receives the frames and clipboard messages of a stream in order, each once, each frame under the last configuration before it. |
| Writer.TheQueuedPositionStands | crates/gliff-server/src/writer.rs:50-60 | A queued position is the one the client ends up with: no shape behind it takes it away. |
| Writer.Queue.VideoReady | crates/gliff-server/src/writer.rs:26-31 | True exactly when no frame is queued. |
| Writer.Queue.BehindLastVideo | crates/gliff-server/src/writer.rs:37-41 | The place just behind the last queued frame. |
| Writer.Queue.Push | crates/gliff-server/src/writer.rs:33-71 | The queue becomes what coalescing says, and delivered plus queued still means what was pushed. |
| Writer.Queue.Pop | crates/gliff-server/src/writer.rs:94-99 | The front message is delivered; what was delivered plus what is queued stays the same. |
| Writer.DeliveredAsPushed | crates/gliff-server/src/writer.rs:33-99 | Over every run of pushes and pops: frames and clipboard messages are delivered exactly once in push order, each frame under the last configuration pushed before it; an emptied queue leaves the client as if nothing had been dropped; queued positions are from after the newest shape; the queue is short. |
| ServerSession.Session.constructor | crates/gliff-server/src/session.rs:123-262 | A session starts at level 1 with the output fitted into the encoder, a keyframe wanted and nothing queued; its chroma is one the client decodes, and of two the single stream exactly for low bandwidth or a CPU that is not asked for full chroma; the configuration already written is the active one. |
| ServerSession.NegotiatedIsDecoded | crates/gliff-server/src/session.rs:1192-1205 | Whatever the client decodes, the negotiated chroma is among it; with both it follows the preference. |
| ServerSession.Session.SendConfig | crates/gliff-server/src/session.rs:939-953 | Pushes exactly the active configuration; from then on the client's geometry is the encoder's. |
| ServerSession.Session.ApplyStreamParams | crates/gliff-server/src/session.rs:960-1015 | The geometry becomes the wanted one exactly if the encoder takes it, else stays; behind a step taken the size is the level's even share of the full-quality size, as far as the encoder takes it, and the chroma the negotiated one, or the single stream exactly when the level drops the other and the client decodes one. A keyframe is wanted whenever the geometry changed; encoder and settings always fit it. |
| ServerSession.Session.LadderStep | crates/gliff-server/src/session.rs:510-533 | So does a step of the ladder; in every state the chroma is one the client decodes, and it is the negotiated one unless the client decodes a single stream. The level stays even when the encoder rejects the geometry. |
| Extent.FitExtentIsTheLargest | crates/gliff-va/src/settings.rs:32-42 | A size the encoder takes is kept; of any other both sides shrink by the ratio that brings the side too long by more down to the encoder's maximum in whole blocks of 16, each to the next even number. |
| Extent.FittedIsTaken | crates/gliff-va/src/settings.rs:32-42 | The encoder takes every size fitted to it, if its maximum is a block of 16 or more. The result is even, as documented, if and only if the size did not fit or had even sides. |
| Extent.AnOddSizeIsKept | crates/gliff-va/src/settings.rs:34-38 | A screen of 641 x 480 on an encoder of 4096 x 4096 is streamed with its odd width. |
| Extent.LevelSizeIsTheShare | crates/gliff-server/src/session.rs:960-972 | The size a level asks for is the level's part of the full size with even sides, fitted to the encoder. |
| Extent.SharesAreSmall | crates/gliff-server/src/session.rs:960-972 | At every scale up to 1 the sides are even and not over the full size's; at scale 1 an even size the encoder takes is streamed unchanged. |
| Extent.MirrorFillsTheWindow | crates/gliff-server/src/session.rs:675-690 | A mirrored screen is never enlarged and never over the window; one that does not fit fills the window in one direction, up to evenness. |
| ServerSession.ScaleOfFollowsTheStream | crates/gliff-server/src/session.rs:1392-1402 | The scale the client is told is the output's times the factor the stream is shrunk by, in thousandths, rounded to the nearest. |
| ServerSession.Session.FitMirror | crates/gliff-server/src/session.rs:678-702 | A mirrored screen is fitted to the window and told to the client; rejected, everything stays. |
| ServerSession.Session.Resize | crates/gliff-server/src/session.rs:610-673 | A window too small changes nothing; a mirrored screen is refitted; a headless output takes the new size and scale with one configuration, or keeps the old size when the compositor or the encoder refuses. |
| ServerSession.Session.OnCapture | crates/gliff-server/src/session.rs:727-757 | A mirrored output that changed size is refitted, ends with a configuration, and a keyframe is wanted even when the fitted size is the same. |
| ServerSession.Session.RequestKeyframe | crates/gliff-server/src/session.rs:535-543 | A keyframe is wanted; nothing else the client sees changes. |
| ServerSession.Session.SendOther | crates/gliff-server/src/session.rs:758-790 | Cursor, pong and clipboard messages leave the stream as it is. |
| ServerSession.Session.PumpEncoder | crates/gliff-server/src/session.rs:802-855 | With room on the link, the timers due and no frame queued, the newest captured frame is taken, else at a due refinement the kept one; if it has the output's size, one frame goes out and it is the one kept, else nothing is sent, and a stale kept frame is dropped. Otherwise nothing changes. |
| ServerSession.Session.EncodeAndSend | crates/gliff-server/src/session.rs:1049-1116 | One frame of the active geometry goes out, a keyframe whenever one was wanted; the first failure of the GPU encoder sends a configuration and a keyframe of the same geometry from the CPU encoder; the session ends exactly when no encoder works. |
| ServerSession.Session.FallBack | crates/gliff-server/src/session.rs:1055-1066 | The CPU encoder takes over at the same geometry, with its own maximum for later. |
| ServerSession.Session.QueueFrame | crates/gliff-server/src/session.rs:1072-1115 | The frame carries the geometry the client was last told. |
| ServerSession.PushKeepsAnswered | crates/gliff-server/src/session.rs:939-953 | A message that is not a frame keeps every frame so far right, and resets the decoder exactly if it changes the geometry. |
| ServerSession.PushFrameKeepsAnswered | crates/gliff-server/src/session.rs:1104 | A frame of the client's geometry, a keyframe if its decoder was reset, keeps every frame right and answers the reset. |
| Connection.DeliveredFramesAreRight | crates/gliff-server/src/writer.rs:33-99 | Every frame delivered so far was encoded for the configuration it arrives under, in a chroma the client decodes, and was a keyframe if the decoder had been reset. |
| Connection.TheNextFrameIsRight | crates/gliff-server/src/writer.rs:94-102 | So is the frame at the front of the queue, whatever was coalesced away around it. |
| Connection.Link.Take | crates/gliff-server/src/writer.rs:94-102 | Taking the front message is what the client reads next: the meaning of what was delivered grows by exactly that message, and a frame is right. |
| Connection.Link.Deliver | crates/gliff/src/net.rs:553-677 | A frame meets a decoder that was really made for its geometry: on the GPU for its size and chroma, on the CPU with an auxiliary codec exactly for two streams. The first frame it is fed is a keyframe. |
| Connection.Link.Serve | crates/gliff-server/src/session.rs:610-1116 | No step of the server spoils that. |
| Connection.Link.Run | crates/gliff-server/src/session.rs:610-1116 | Over every run of ladder steps, resizes, rejected geometries, reconfigurations there and back, the CPU fallback, captures, encodes, queue pops, drains and zooms: every frame is in a chroma the client decodes and meets a decoder made for it, on the GPU for its size and chroma, on the CPU with an auxiliary codec exactly for two streams, and the first frame after any reset is a keyframe. At its end, unless a decode failed or the UI went away, the pictures the UI got are in decode order, each painted with the configuration before its own frame, at the size that frame was encoded. |
| Connection.WholeSession | crates/gliff-server/src/session.rs:123-262 | All of that from the first configuration on, for every output, encoder and client: a session that has just started stands as `Run` needs it. |
| ClientLoop.Decoder.Decode | crates/gliff-sw/src/lib.rs:411-430 | `held` is what the codecs hold; a picture comes out of both streams or of neither, the one before when one was held; they fall out of step exactly when one of the two delivers alone; the codecs stay the ones it was made with. |
| ClientLoop.Decoder.Flush | crates/gliff-sw/src/lib.rs:437-456 | Drains the one picture held, if any. |
| ClientLoop.Decoder.HasPending | crates/gliff-sw/src/lib.rs:403-405 | True exactly when something is held. |
| ClientLoop.Client.Show | crates/gliff/src/net.rs:623-629 | The newest picture wins: taken, it is the last the UI got; refused, it is the one that waits. |
| ClientLoop.Client.OnConfig | crates/gliff/src/net.rs:649-677 | Only a new coded geometry replaces the decoder, by one made for that geometry, and what waits and what is inside go with the old one. |
| ClientLoop.Client.TakeUnit | crates/gliff/src/net.rs:561-587 | The tag in force is queued with the unit, the queue of tags mirrors what the decoder holds, and the decoder stays the one in use. |
| ClientLoop.Client.Present | crates/gliff/src/net.rs:597-632 | A picture takes the oldest tag, which is that of the unit it was coded in. |
| ClientLoop.Client.OnVideoFrame | crates/gliff/src/net.rs:554-648 | Pictures reach the UI in decode order, each with the geometry in force when its unit was read; the picture shown is the one of the unit that came out. |
| ClientLoop.Client.Drain | crates/gliff/src/net.rs:510-546 | A waiting picture is retried unchanged; else the decoder is drained and its last picture shown with its own tag. |
| ClientLoop.Client.OnZoom | crates/gliff/src/net.rs:462-505 | The GPU decoder redraws its last picture with that picture's tag; the CPU one asks for a keyframe. |
| ClientLoop.UnitFed | crates/gliff/src/net.rs:569-641 | What feeding one unit does to the tags, the pictures and their order. |
| ClientLoop.ShowKeepsOrder | crates/gliff/src/net.rs:617-629 | Showing or keeping a picture that follows keeps everything in order. |
| Link.LinkEstimator.OnSent | crates/gliff-server/src/rate.rs:85-104 | The frame is in flight with what had been delivered, and the accounts balance: sent is delivered plus in flight. |
| Link.LinkEstimator.OnAck | crates/gliff-server/src/rate.rs:111-153 | An unknown frame changes nothing; a known one delivers all frames up to it, keeps the accounts balanced with no subtraction saturating, and gives a rate sample exactly when one is due; the windows of round trips and rates afterwards are exactly the old ones pruned with the new sample added, the base is the least round trip of its window, and the least since the last evaluation is the smaller of before and this one. |
| Link.SendingKeepsAccounts | crates/gliff-server/src/rate.rs:85-104 | Sending keeps: in flight is the sum over the frames sent, delivered is what the acks covered, and each frame knows the last ack before it. |
| Link.AckingKeepsAccounts | crates/gliff-server/src/rate.rs:119-125 | So does an ack of any frame in flight, which never takes away more than is in flight. |
| Link.SampleMeasures | crates/gliff-server/src/rate.rs:131-143 | Each rate sample times its elapsed time is exactly eight times the bytes acknowledged after the ack last seen when the frame was sent. |
| Link.LinkEstimator.RecordRate | crates/gliff-server/src/rate.rs:184-204 | An app-limited sample never lowers the maximum rate, though the window is pruned with it, and is dropped unless it beats the maximum. |
| Link.ANewMaximumStays | crates/gliff-server/src/rate.rs:195-202 | However much of the window is pruned, a sample above the maximum becomes the maximum. |
| Link.MaxRateIsTheMaximum | crates/gliff-server/src/rate.rs:240-245 | The rate is attained by a sample and no sample exceeds it. |
| Link.MinRttIsTheLeast | crates/gliff-server/src/rate.rs:211-217 | The base round trip is one of the window's and none is less; there is none exactly without a round trip. |
| Link.LinkEstimator.RecentRateIsTheMean | crates/gliff-server/src/rate.rs:249-265 | The recent rate is the mean of exactly the samples that were not app-limited and no older than half a second or the base round trip, each once; there is none exactly without such a sample, else it lies between two of them. |
| Link.RecentIsPicked | crates/gliff-server/src/rate.rs:252-261 | The filter picks exactly those samples, each once and in order. |
| Link.LinkEstimator.RecordRtt | crates/gliff-server/src/rate.rs:162-182 | The smoothed round trip, its deviation, and the least since the last evaluation; the base window holds nothing older than it spans. |
| Link.LinkEstimator.SeedRtt | crates/gliff-server/src/rate.rs:156-160 | The handshake round trip counts only before any other. |
| Link.LinkEstimator.TakeWindowQueueingMs | crates/gliff-server/src/rate.rs:234-237 | The queueing is the least round trip since the last call over the least of the window: never negative, no less than over any round trip of the window, and exactly over one of them; none without an ack. |
| Link.LinkEstimator.CapBytes | crates/gliff-server/src/rate.rs:286-294 | The cap never falls below the size expected next, two frames as large as the largest, or 96 KiB, so sending can always go on. |
| Link.LinkEstimator.QueueThresholdMs | crates/gliff-server/src/rate.rs:226-229 | At least 50 ms and else at most twice the base and four deviations; between these it is four deviations. |
| Link.LinkEstimator.RateWindow | crates/gliff-server/src/rate.rs:206-209 | Between one and fifteen seconds, and ten base round trips in between. |
| QualityLadder.AffordableIsMonotone | crates/gliff-server/src/rate.rs:403-419 | A worse level or a faster link never affords fewer bits per pixel. |
| QualityLadder.SelectSplitsTheLevels | crates/gliff-server/src/rate.rs:423-438 | The selected level splits the levels into those too good for the rate and those the rate pays for. |
| QualityLadder.SelectIsMonotone | crates/gliff-server/src/rate.rs:423-438 | A faster link never selects a worse level, a higher floor never a better one. |
| QualityLadder.StepsAreRare | crates/gliff-server/src/rate.rs:468-493 | Of the moves made outside slow start within T seconds at most 1 + T/4 are up and at most 6 + 6 x (the ups) are down. |
| QualityLadder.PartOfLinked | crates/gliff-server/src/rate.rs:500-504 | Any stretch of a run is itself such a run, so the bounds hold between any two points in time. |
| QualityLadder.AFlapDelaysStepsUp | crates/gliff-server/src/rate.rs:470-493 | After a flap every later step up outside slow start is put off by twice the hold before the flap, or by 300 s. |
| QualityLadder.Ladder.Consider | crates/gliff-server/src/rate.rs:442-498 | A move happens exactly on complete evidence, goes the intended way to the level the rate selects, and stays there at that rate; a step up outside slow start comes no sooner after the last move than the hold in force, one in slow start at once; without congestion a step down comes two seconds after the level was first found too good, with it at once; `hold_up` never falls, doubles on a flap and is at most 300 s. |
| QualityLadder.Ladder.Decide | crates/gliff-server/src/rate.rs:460-498 | The same for given selected levels, on every branch, with the two timers and the hold. |
| QualityLadder.Ladder.AtAConstantRate | crates/gliff-server/src/rate.rs:442-498 | A constant rate causes at most one change, ever. |
| QualityLadder.Ladder.Settles | crates/gliff-server/src/rate.rs:442-498 | A constant rate that is not app-limited, measured for one hold outside slow start, brings the ladder to a level where that rate keeps it. |
| QualityLadder.Ladder.Run | crates/gliff-server/src/rate.rs:442-504 | Over every schedule of questions, whatever the link measured and the stream was: in every stretch of moves outside slow start the bounds above hold; the hold starts at four seconds and doubles, up to 300 s, exactly at the steps down within twice the hold of a step up; every step up outside slow start waits for the hold in force; each question causes at most one move. |
| RateControl.RateController.SetBounds | crates/gliff-server/src/rate.rs:573-584 | 1 <= min <= effective max for every geometry and every cap, so no clamp panics; a cap of at least 1 is never exceeded; the bounds are 0.1 and 0.025 bits per pixel within 80 Mbit/s and 100 kbit/s. |
| RateControl.RateController.Reconfigure | crates/gliff-server/src/rate.rs:596-599 | The target is moved only as far as the new bounds ask. |
| RateControl.RateController.constructor | crates/gliff-server/src/rate.rs:547-571 | Starts in slow start with the target between its bounds. |
| RateControl.RateController.SlowStartStep | crates/gliff-server/src/rate.rs:673-691 | Raises to twice the measured rate, never down and never above the maximum, only on an ack of bytes sent after the last raise, and ends after the timeout or at the maximum. |
| RateControl.RateController.Cut | crates/gliff-server/src/rate.rs:716-736 | A cut lands between the minimum and 0.95 of the target, at 0.85 of the recent rate, and gives a reason, delay or rate by the queueing, exactly when that is below the target. What it comes to over the samples is stated by `OnAck`. |
| RateControl.RateController.Raise | crates/gliff-server/src/rate.rs:747-765 | Before a full hold nothing; then, if 0.85 of the measured rate is over the target, the reason is Track and the target the smaller of that and the maximum; else, if eight per cent a second more is over the target within the maximum, the reason is Grow and that the target; else nothing. |
| RateControl.RateController.Judge | crates/gliff-server/src/rate.rs:705-765 | One evaluation with evidence is recorded as overused or not, and target and reason are those of the cut, the raise or neither that the record, slow start and the hold call for. |
| RateControl.RateController.Evaluate | crates/gliff-server/src/rate.rs:693-766 | Evaluations are at least 250 ms or one round trip apart, consume the blocked marks, and without an ack in the window change nothing; target and reason are those of the evaluation of what the link showed. |
| RateControl.RateController.OnAck | crates/gliff-server/src/rate.rs:669-766 | For every state and ack, target and reason are exactly those of slow start, else of the evaluation if one is due, for the state before. The target stays within its bounds. It falls only when the last two evaluations were both blocked and overused, on an ack that finds queueing above the threshold or a recent rate under 0.7 of the best; then to at most max(min, 0.85 r) and max(min, 0.95 target), and, up to rounding, to no less than the smaller of 0.85 r and 0.95 target, where r is the mean of exactly the samples that tell what the link delivers now, without any the best rate. A raise goes to twice the best rate in slow start and to 0.85 of it later, within the maximum, the latter 1.5 s and two round trips after the last cut or jump. Outside slow start the target keeps up with the link: an evaluation that is due and finds that cause for the second time leaves it at most max(min, 0.85 r); one that finds none after a full hold leaves it at 0.85 of the best rate or more, else two per cent higher, within the maximum. A reason comes with an unchanged target if and only if the controller tracks in place. |
| RateControl.AnswersGoByTheSamples | crates/gliff-server/src/rate.rs:669-766 | The same of every state on values: what cuts and jumps go by, when they come, and what causes a cut. |
| RateControl.EvaluationsKeepUp | crates/gliff-server/src/rate.rs:693-766 | And how a due evaluation keeps up with the link, of every state on values. |
| RateControl.ReportsInPlaceExactlyAtTheCeiling | crates/gliff-server/src/rate.rs:668-766 | A changed target always gives a reason, as documented. A reason without a change is given if and only if: the target is at the effective maximum, slow start is over, an evaluation is due with an ack in its window, it is not both blocked and overused, a full hold has passed, and 0.85 of the measured rate is over the target; the reason is then Track. |
| RateControl.AnUnchangedTargetIsReported | crates/gliff-server/src/rate.rs:751-757 | On two streams of a 1920 x 1080 screen under a fixed cap, two frames sent and acknowledged from the start end in an ack that is answered with Track while the target stays as it was. |
| RateControl.RateController.NoteFrameSent | crates/gliff-server/src/rate.rs:625-631 | Idle time does not count towards the start-up timeout. |
| RateControl.Pacer.FrameAcked | crates/gliff-server/src/rate.rs:673-691 | An ack adds exactly its answer to the record, with the rates of the samples that told and the best rate; the record keeps every answer right and the raises of slow start a flight apart: each needs an ack of a frame sent after the one before. |
| RateControl.Pacer.FrameSent | crates/gliff-server/src/session.rs:1049-1112 | A frame counts as under way from the start of its encode and as sent at its end; sending moves neither the target nor the windows of the estimator. |
| RateControl.Pacer.Run | crates/gliff-server/src/rate.rs:573-777 | Over every schedule of frames encoded and sent, acks, handshake round trips, reconfigurations, blocked marks and idle marks in time order: each ack is answered once, every answer keeps the bounds in force and falls or rises only as `OnAck` says, a cut going by the mean of the samples recorded with it, and between two raises of slow start an ack came for a frame sent after the first. |
| Clipboard.SendWindow.OnAck | crates/gliff-proto/src/clipboard.rs:367-376 | Refuses exactly an ack for bytes not sent; else drops exactly the leading chunks it covers. |
| Clipboard.SendWindow.OnSent | crates/gliff-proto/src/clipboard.rs:362-365 | The chunk counts as unacknowledged up to its end. |
| Clipboard.Assembler.Accept | crates/gliff-proto/src/clipboard.rs:398-421 | Takes exactly the chunk that follows, of at most 256 KiB, within the cap and before the last; the first rule broken names the error and nothing changes. |
| Clipboard.SendKeepsGood | crates/gliff-transport/src/clipboard/mod.rs:431-467 | Sending a chunk with room in the window keeps the protocol: what is in the pipe are consecutive pieces of the source, and what waits for an ack are the ends of those and of the acks under way. |
| Clipboard.ArriveKeepsGood | crates/gliff-transport/src/clipboard/mod.rs:273-299 | The chunk that arrives is at the offset the receiver expects, within size and source. |
| Clipboard.ConsumeKeepsGood | crates/gliff-transport/src/clipboard/mod.rs:343-380 | Writing out a chunk and acknowledging it, unless it is the last, keeps the protocol. |
| Clipboard.AckKeepsGood | crates/gliff-proto/src/clipboard.rs:367-376 | Every ack is for bytes that were sent and frees at least one chunk. |
| Clipboard.RoomAndProgress | crates/gliff-proto/src/clipboard.rs:347-376 | The chunks and acks under way never exceed the window, the last chunk and one, and no reachable state before the end is deadlocked. |
| Clipboard.CountsAreOrdered | crates/gliff-proto/src/clipboard.rs:347-422 | acked <= written <= received <= sent always; what is written is a prefix of the source and, at the end, the source. |
| Clipboard.Transfer.Send | crates/gliff-transport/src/clipboard/mod.rs:431-467 | The sender's step in the protocol. |
| Clipboard.Transfer.Arrive | crates/gliff-transport/src/clipboard/mod.rs:273-299 | `accept` fails in no reachable state but for the cap, and then exactly when the source is over it by this chunk. |
| Clipboard.Transfer.Consume | crates/gliff-transport/src/clipboard/mod.rs:343-380 | The consumer's step. |
| Clipboard.Transfer.TakeAck | crates/gliff-proto/src/clipboard.rs:367-376 | `on_ack` fails in no reachable state. |
| Clipboard.Transfer.RunToTheEnd | crates/gliff-proto/src/clipboard.rs:347-422 | From every reachable state every schedule that keeps taking enabled steps ends; with the whole source written if and only if it fits the cap. |
| Utf8.ValidUtf8IsText | crates/gliff-proto/src/clipboard.rs:217-233 | The bytes taken for UTF-8 are exactly the encodings, by section 3 of RFC 3629, of sequences of Unicode scalar values. |
| Utf8.TrimTakesTheWhiteSpace | crates/gliff-proto/src/clipboard.rs:192-196 | Of any text, trimming takes exactly the Unicode white space at its two ends. |
| UriLists.DecodingUndoesEncoding | crates/gliff-proto/src/clipboard.rs:217-246 | Decoding the percent-encoding of any bytes gives them back. |
| UriLists.PercentDecode | crates/gliff-proto/src/clipboard.rs:217-233 | The loop computes the decoding, and nothing exactly on a broken escape or bytes that are not UTF-8. |
| UriLists.PercentEncodePath | crates/gliff-proto/src/clipboard.rs:235-246 | The loop computes the encoding. |
| UriLists.EncodedIsPlain | crates/gliff-proto/src/clipboard.rs:235-246 | Encoded paths hold no space, line end, `#` or byte outside printable ASCII. |
| UriLists.EchoIsThePathExactlyIfLocal | crates/gliff-proto/src/clipboard.rs:201-246 | A printed UTF-8 path reads back as itself if and only if it is absolute and without NUL. |
| UriLists.BodiesReadBackExactlyIfLocal | crates/gliff-proto/src/clipboard.rs:193-269 | For every list of UTF-8 paths, parsing the `text/uri-list` body, and parsing the gnome-copied-files body, gives the list back if and only if every path is absolute and without NUL. |
| UriLists.LocalPartIsBehindTheHost | crates/gliff-proto/src/clipboard.rs:200-211 | A URI names a path of this machine if and only if it is `file://` or `file://localhost` and then that path, from its first slash on. |
| UriLists.WhiteSpaceDoesNotMatter | crates/gliff-proto/src/clipboard.rs:192-198 | A line is read as what it holds between the white space at its ends. |
| UriLists.PathsAreReadInAnyLine | crates/gliff-proto/src/clipboard.rs:192-233 | A printed local path is read back, with `localhost` and without, whatever white space is around it. |
| UriLists.UriList | crates/gliff-proto/src/clipboard.rs:250-258 | The loop prints that body. |
| UriLists.GnomeCopiedFiles | crates/gliff-proto/src/clipboard.rs:261-269 | The loop prints that body. |
| UriLists.DecodedStrictlyExactlyIfWellFormed | crates/gliff-proto/src/clipboard.rs:217-233 | Whatever decodes at all decodes as RFC 3986 (sections 2.1 and 3.3) has it for a path if and only if it holds neither an escape of a percent sign, a plus sign and a hex digit nor a raw byte that may stand in a path only as an escape; with one of them it is malformed. |
| UriLists.LineReadAsPromisedExactlyIfWellFormed | crates/gliff-proto/src/clipboard.rs:200-215 | A line that is read is treated as documented, malformed ones being skipped, if and only if its path holds neither; one that does should have been skipped. A line that is not read was to be skipped. |
| UriLists.ListReadAsPromisedExactlyIfWellFormed | crates/gliff-proto/src/clipboard.rs:192-215 | And a list of lines gives exactly the paths promised if and only if no line of it that is read is malformed in one of these ways. |
| UriLists.BodyReadAsPromisedExactlyIfWellFormed | crates/gliff-proto/src/clipboard.rs:192-198 | So does the body of a `text/uri-list`. |
| UriLists.APlusPassesForADigit | crates/gliff-proto/src/clipboard.rs:192-226 | The body `file:///%+A`, whose one line is malformed, is parsed to the path of a slash and a line feed, where the empty list was promised. |
| UriLists.ABlankPassesForAnEscape | crates/gliff-proto/src/clipboard.rs:192-231 | The body `file:///a b`, whose one line is malformed, is parsed to the path `/a b`, where the empty list was promised. |
| Colour.ForwardIsWithinOne | crates/gliff-sw/src/convert.rs:238-255 | For all byte triples the fixed-point luma and chroma are within one code value of the rounded real-valued reference. |
| Colour.InverseIsWithinOne | crates/gliff-sw/src/convert.rs:257-268 | So are red, green and blue. |
| Colour.ForwardStaysInRange | crates/gliff-sw/src/convert.rs:234-255 | Luma lies in 16..235 and chroma in 16..240 before the clamp, which never acts; black is 16 and white 235; greys have chroma exactly 128. |
| Colour.RoundTripIsWithinTwo | crates/gliff-sw/src/convert.rs:238-268 | A colour comes back from 4:4:4 within two code values a channel. |
| Colour.CloseSumsRoundClose | crates/gliff-sw/src/convert.rs:32-34 | A fixed-point sum within half a code value of the real one rounds to a byte at most one off. |
| Rows.RowY | crates/gliff-sw/src/convert.rs:241-246 | The scalar luma loop writes each sample from its own pixel. |
| Rows.RowUv | crates/gliff-sw/src/convert.rs:248-255 | The scalar chroma loop writes each sample from the pixel its step names. |
| Rows.RowBgra | crates/gliff-sw/src/convert.rs:257-268 | The scalar inverse loop writes each pixel from its own luma and its chroma sample, opaque. |
| Avx2.PacksClampExactlyBelow | crates/gliff-sw/src/convert.rs:333-341 | Packing twice with saturation is the clamp if and only if the sum is below 2^15. |
| Avx2.DotIsTheScalarSum | crates/gliff-sw/src/convert.rs:321-329 | Multiply-add, horizontal add, permute, bias and shift give the scalar sum of each pixel, in pixel order, without a wrap. |
| Avx2.PermuteRestoresOrder | crates/gliff-sw/src/convert.rs:321-329 | The permute undoes the order in which the horizontal add leaves the pixels. |
| Avx2.PackedInOrder | crates/gliff-sw/src/convert.rs:333-341 | Packing and permuting leave sixteen lanes in order. |
| Avx2.BlockInOrder | crates/gliff-sw/src/convert.rs:351-366 | Each byte of a block is the packed scalar sum of its pixel. |
| Avx2.EvenPixelsInOrder | crates/gliff-sw/src/convert.rs:295-316 | Loading with step two picks exactly the even pixels, in order. |
| Avx2.FourChannelsPacked | crates/gliff-sw/src/convert.rs:437-452 | Packing four channels leaves four bytes of each in turn per lane. |
| Avx2.EightPixelsInOrder | crates/gliff-sw/src/convert.rs:415-455 | The shuffle makes them BGRA pixels in order, each byte the packed scalar sum. |
| Avx2.PixelIsClamped | crates/gliff-sw/src/convert.rs:428-452 | Those sums are below 2^15, so packing equals the scalar clamp. |
| Avx2.ByteAfter | crates/gliff-sw/src/convert.rs:415-455 | Every byte of eight pixels is the scalar loop's, with and without upsampling. |
| Avx2.RowYAvx2 | crates/gliff-sw/src/convert.rs:351-367 | For every row length the AVX2 luma kernel and its scalar tail write byte for byte what the scalar loop writes, every pixel once. |
| Avx2.RowUvAvx2 | crates/gliff-sw/src/convert.rs:372-396 | So does the chroma kernel, for both steps. |
| Avx2.RowBgraAvx2 | crates/gliff-sw/src/convert.rs:415-463 | So does the inverse kernel, with and without upsampling, and nothing behind the row is touched. |
| Chroma.JoinUndoesSplit | crates/gliff-proto/src/chroma.rs:58-126 | For all even sizes, recombining the two frames of a split gives the source back. |
| Chroma.SplitUndoesJoin | crates/gliff-proto/src/chroma.rs:58-126 | And splitting any recombined pair gives the pair back: the two are inverse bijections. |
| Chroma.PlanarSplitIsTheSplit | crates/gliff-sw/src/convert.rs:98-139 | The planar split is the interleaved split, deinterleaved, plane by plane. |
| Chroma.SubsamplingIsLosslessExactlyOnBlocks | crates/gliff-proto/src/chroma.rs:130-153 | Subsampling and upsampling give the frame back if and only if its chroma is constant over each 2x2 block. |
| ChromaPlanes.SplitYuv444 | crates/gliff-proto/src/chroma.rs:58-98 | The nested loops fill the planes of the split. |
| ChromaPlanes.RecombineYuv444 | crates/gliff-proto/src/chroma.rs:101-126 | The nested loops fill the planes of the join. |
| ChromaPlanes.Nv12ToYuv444 | crates/gliff-proto/src/chroma.rs:130-148 | The nested loops fill the upsampled planes, for every size: the last row or column of an odd size keeps the zero it was made with. |
| ChromaPlanes.Yuv444ToNv12 | crates/gliff-proto/src/chroma.rs:151-153 | The main frame of the split. |
| ChromaPlanes.SplitYuv444Planar | crates/gliff-sw/src/convert.rs:100-139 | The CPU encoder's loops fill the planes of the planar split. |

## Left out

- Dpb.ApplyMmco: with operation 5 in a longer list the model states only that nothing is held afterwards, the just-stored current picture included, as the code does; section 8.2.5.1 of ITU-T H.264 would keep the current picture.
- H264Decoding.H264Decoder.Decode: the claims about lists, live surfaces and the most recent references are for streams without gaps in `frame_num` and without marking operations; for the others it states the step from slots to slots. Long-term references and B slices are refused, as in the code. When a list and the driver would both fail the model reports the list.
- H264Decoding.H264Decoder.OpenStream: the comparison of parameter set bytes, the size limit and the driver's surfaces are not modelled; the caller opens the stream.
- Lockstep.Pair.Run: order counts are unbounded where the code has 32 bits, so the claim is about runs of fewer than 2^31 pictures between keyframes.
- The H.264 bit reader, bit writer and header parser: slice headers and parameter sets are records.
- Framing.NextFrame: the CBOR codec is an arbitrary function from bodies to known, unknown or undecodable.
- Reading.FramedReader.ReadMsg: errors of the underlying stream other than its end are not modelled.
- ServerSession.Session.EncodeAndSend: the encoder is abstract (it may fail, and may make a keyframe unasked), payload bytes are not modelled, and neither are the encoder's bitrate, cadence and buffer window; an error that ends the session ends the claims.
- ServerSession.Session.ApplyStreamParams: the rate controller's new bounds and the refinement timers are not modelled; the controller is `RateControl`. The code sets the bounds for the wanted geometry before it knows whether the encoder takes it, so that a rejected one leaves the bounds of a size that is not in use (`crates/gliff-server/src/session.rs:977-1012`).
- ServerSession.Session.constructor: a client that decodes neither one nor two 4:2:0 streams is turned away before there is a session; the native 4:4:4 mode, which no session chooses, is not modelled.
- ServerSession.Session.RequestKeyframe: the reset of the refinement timer is not modelled.
- ServerSession.Session.OnCapture: a monitor lookup that fails is not modelled; the size and scale it gives are parameters.
- ServerSession.Session.Resize: asking the compositor for a mode and waiting for it are the parameters `modeSet` and `applied`; a scale that is not finite and an output of width or height zero are not modelled.
- ServerSession.Session.PumpEncoder: the pace, the byte cap and the refinement timer are the parameters `room`, `due` and `refineDue`; capture requests are not modelled.
- ClientLoop.Client.OnVideoFrame: the claims about tags and order end at the first decode error or the loss of the UI (`clean`); the CPU codec is taken to return pictures in order and to hold back at most one, the GPU codec none.
- ClientLoop.Client.OnZoom: a zoom that fails, pixel replication and the buffer pool are not modelled; a GPU decoder that has shown nothing redraws nothing.
- SendQueue.PushKeepsTheView: the state of a client follows the cursor position of the wire, and a shape takes the position before it along, as that says nothing of the new shape; the client in this repository ignores the position messages (`crates/gliff/src/net.rs:698`).
- Link.LinkEstimator.OnAck: the delivered-frames-per-second estimate is not modelled beyond its window.
- RateControl.RateController.SetBounds: the bits-per-frame floor, the per-frame budget and the rate-control buffer window are not modelled.
- QualityLadder.Ladder.Consider: the link is asked for its rate and its evidence before the call; both are parameters.
- Clipboard.Transfer.RunToTheEnd: transfer ids, parity, aborts, refusals, timeouts and several transfers at once are not modelled; the sender is the one that keeps chunks non-empty except possibly the last.
- UriLists.LineReadAsPromisedExactlyIfWellFormed: what is promised is that malformed lines are skipped, not that every local path is read; other spellings of one (`FILE:`, `file:/a`, a path that is not UTF-8) are skipped in both readings. White space around a line is not part of it, and a query or fragment is no part of a file URI (section 2 of RFC 8089).
- UriLists.BodiesReadBackExactlyIfLocal: paths are UTF-8; a path that is not is replaced lossily before it is printed. Paths are compared as bytes.
- Chroma.JoinUndoesSplit: sizes are even, as the code asserts; an odd size panics. Upsampling alone is modelled for every size.
- ChromaPlanes.SplitYuv444Planar: rows are filled one after the other, where the code fills them in parallel, and a width of zero, on which the parallel chunking panics, is not told apart.
- Avx2.RowBgraAvx2: instructions are functions on lanes, and loads and stores are slices; alignment and the choice of kernel by processor are not modelled.
- Rows with a stride, downscaling and the picture quality measure.
- Clipboard offers, type negotiation, file lists, spooling and safe paths.
- The GPU pipeline, VA-API, OpenH264, Wayland capture and input, the compositor, ssh, the handshake and the user interface.
