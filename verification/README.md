# The frame pipeline of the overlay, modelled and proved in Dafny

The overlay draws a web page into a running game. A CEF webview produces frames, a control stream and
shared memory carry them, and a GL compositor inside the game shows and acknowledges them. This project
models that pipeline and proves what its parts promise together: that the producer's idea of the picture
on screen is right, that the newest paint is not lost, that acknowledgements and requests add up, and that
every buffer, descriptor and fence ends where it should. Where the code falls short of a promise the project
gives the exact condition over whole runs and, for the frame pipeline, a run in which it happens.

Run `dafny verify dfyconfig.toml` to check the whole project.

## Layers

Each layer has its own theorems; the composition joins the first six.

- **Delta codec** (`Raster`, `ShmDelta`, `ShmDiff`, `ShmFormat`, `DirtyRoi`). Canvases are byte sequences.
  Packing, scanning and converting are the source's loops over arrays, proved against byte-wise
  definitions. Main results: `ShmDelta.ValidateIsExact`, `ShmDelta.PacketRoundTrip`, `ShmDiff.FindDelta`,
  `ShmDiff.DeltaRoundTrip`, `DirtyRoi.DirtySurvivesFlip`.
- **Staging** (`Staging`, `GpuBuf`). A framebuffer blit is a rectangle write that samples pixel centres.
  Main results: `Staging.PartialHoldsIff`, `GpuBuf.ExportHoldsIff`.
- **Control stream** (`ControlWire`, `ControlStream`, `ControlSocket`). The stream is a byte sequence that
  grows by arbitrary chunks; `ControlSocket` is the producer's end as a class with a ghost history. Main
  results: `ControlStream.WaitAckTakesRecords`, `ControlStream.RecvFreshTakesRecords` and the invariant
  `ControlSocket.Valid` that every method keeps.
- **Producer** (`ViewState`, `ViewFacts`, `ViewSends`, `View`). `View.View` has the fields and callbacks of
  the C++ class and updates them in place. Each method is proved equal to a function in `ViewState` on the
  whole abstract state. `ViewFacts` proves what every callback keeps, whatever the system answers;
  `ViewSends` proves what a callback may put on the wire.
- **GL consumer** (`Screen`, `Descriptors`, `Scm`, `GlConsumer`). `GlConsumer.GlConsumer` holds the two
  texture slots and the kept frame as arrays; its `Valid` contains the descriptor ledger, so every method
  that keeps `Valid` keeps each open descriptor in exactly one place. Each method refines a function of
  `Screen`.
- **Resize debounce** (`Resize`), used by the composition.
- **Composition** (`Pipeline`, `PollFacts`, `PipelineFacts`, `PipelineRuns`, `Mirror`, `Captures`, `Requests`,
  `Sizes`). A transition system interleaves the view's callbacks, the polls, the connection task, the game's
  turns, link failures and texture failures. The frames of abandoned connections are still served before the
  newest one, one connection after another. A poll reads
  what has arrived of the records on the stream. A texture of imported memory samples a buffer object of the
  view, and an upload into it is a write to that object; objects the view replaced live on. Main results:
  `PipelineRuns.MirrorCoherence`, `NoLostUpdate`, `BuffersKeepTheirPictures`, `IntactIff`, `Accounting`,
  `NoAckDiscarded`, `Mirror.MirrorIff`, `Mirror.MirrorStateIff`, `Captures.DirtyBlitHasBase`,
  `Requests.FramesWereAskedFor`, `Requests.ShutdownSurvives`, `Sizes.ResizeConverges`.
- **Limits** (`Limits`, `Episodes`). `Limits` says over every run where those results end; `Episodes` builds
  runs from the initial state that get there. Main results: `Limits.WrongBufferIff`,
  `Limits.ForwardedThenDirtyIff`, `Limits.NewestIsDisplayed`, `Episodes.ErasureHappens`.
- **Shared-memory transport** (`SharedMemory`, `FrameSlot`, `CursorSeqlock`, `InputMailbox`). Interleaved
  atomic word or byte accesses of two processes under sequential consistency. Copies move their words in
  any order. A futex wait may return at any time.
- **Fence ring** (`FenceRing`). Resource lifetimes over unbounded runs of submissions and shutdowns.

## What the model takes as given

- What the system answers is a parameter everywhere: whether a send goes through, a buffer maps, a blit
  succeeds, a fence wait times out. No result assumes a good answer unless it says so.
- `History.kept` records that the newest paint was itself stored or sent whole, and that no upload changed
  the one buffer that holds it. A later paint that is stored or sent whole sets it again. Only
  `NoLostUpdate` asks for it, and an honest dirty list is needed only for a rectangle or a partial blit that
  was really sent.
- A buffer object remembers who wrote it last, the view, the game, or the game over part of what the view had
  written. `BuffersKeepTheirPictures` is about the first kind; `IntactIff` says when there is no other.
- Related fields of the C++ class are grouped into records (`Link`, `Pace`, `Deferral`, `Flight`, `Shadow`),
  and in the abstract state a buffer pointer carries the pixels it was recorded with.
- A descriptor is one opening, not a number: the kernel never hands out one that is still open.
- Acknowledgement pad bytes are zero, as the sender's `memset` leaves them.

## Where the source does less than it says

- `idk_shm_delta_validate` computes the packet length in 64 bits. For rectangles of 2^62 pixels it wraps,
  and a 20-byte mapping passes. `ShmDelta.ValidateSizeMeaning` gives the exact condition,
  `ValidateWraps` the input. Canvases with signed 32-bit sides are safe (`DirtyRoi.CanvasFits`).
- The comment above `choose_shm_roi` says its rectangle is top-left; the code flips it to bottom-left rows.
  The model follows the code.
- `keep_last_frame` keeps the first frame of a batch, as its comment says and its name does not.
- `OnPaint`'s direct send has no failure branch, so a paint whose send fails is gone until the page paints
  again: `Limits.DirectPaintKept`, both directions.
- Both staging buffers start at generation 1, so identifiers are not unique across them. A frame can be
  accepted while another buffer is shown: `Limits.WrongBufferIff` says exactly when in every run,
  `Limits.CollidedIff` for how long, `Episodes.WrongBufferHappens` is a run. `NoLostUpdate` excuses the frame
  accepted last (`collided`, cleared by the next one), a deleted texture, and imported memory staged into.
- A full upload into a slot that holds a memory-object import writes into the imported buffer, which the view
  may have staged into again: `PipelineRuns.IntactIff` and `NewestSurvivesIff` say exactly when a picture is
  lost that way, `Episodes.ErasureHappens` is a run.
- The other way round, a staging blit into such a buffer changes the picture on screen at once. `Mirror.MirrorIff`
  and `Mirror.MirrorStateIff` say exactly when the mirror is broken that way, `Mirror.NewestShownIff` what that
  means for the newest paint; `Episodes.MirrorBreaks` and `Episodes.NewestNotShown` are runs. On the EGL image path
  neither happens (`Limits.RunOwn`), and `Limits.MirrorIsExact` and `Limits.NewestIsDisplayed` have no such exception.
- After a staging failure before the blit, a forwarded and accepted CEF buffer re-enables dirty-only blits
  onto an old staging image: `Limits.ForwardedThenDirtyIff` says exactly when the picture sent is wrong,
  `Episodes.StaleBaseHappens` is a run.
- `scm_recv_fds` does not close the descriptors of control messages it gives up on. `Scm.RecvFds` says which;
  no kernel delivers such messages into this buffer, and of those it delivers none is lost
  (`Scm.SoundLeaksNothing`).
- The millisecond test can fire up to a millisecond early: `Resize.StableIff`, both directions, and
  `Resize.StableMayBeEarly`.
- An acknowledgement that carries a size and never reaches the view takes the size with it. From then until
  the next new size the view renders at what it had (`Sizes.LostSizeStaysLost`, with a run in
  `Episodes.SizeLostHappens`); otherwise the sizes converge (`Sizes.ResizeConverges`).
- A shared-memory producer that sends without waiting for its acknowledgement can lose a frame
  (`FrameSlot.ImpatienceLosesFrame`).
- A failed fence wait leaks its slot's resources, and so does queueing over a slot whose fence could not be
  recreated (`FenceRing.LeaksIff`). A shutdown and the synchronous path destroy resources after a failed wait
  (`FenceRing.EarlyIff`). Both directions each, over every run, with `FenceRing.LeakHappens` and `EarlyHappens`.

## Model

Paths are relative to the repository's root.

| member | source | states |
|---|---|---|
| `Bytes.U32RoundTrip` | include/public/idk_shm_delta.h:18-26 | a 32-bit little-endian field written anywhere into a byte string reads back as the same number |
| `Raster.AddrCoords` | src/cli/webview_cef/view.cc:496-498 | row-major byte addresses determine the column, row and channel they came from |
| `Raster.PatchCompletes` | src/cli/webview_cef/view.cc:495-498 | copying one rectangle from a source makes a canvas equal to that source if and only if the two already agreed on every byte outside it |
| `Memory.Memcpy` | include/public/idk_shm_delta.h:52-53 | a copy changes exactly the addressed bytes and leaves both sides of them alone, with every index in bounds |
| `ShmDelta.ValidateIsExact` | include/public/idk_shm_delta.h:34-40 | on every canvas whose whole packet fits 64 bits, a packet is accepted if and only if its rectangle is non-empty, inside the canvas and its length is the true one |
| `ShmDelta.ValidateSizeMeaning` | include/public/idk_shm_delta.h:38-39 | without that bound: the size test tells the right length from every other one if and only if the true packet length fits 64 bits |
| `ShmDelta.ValidateWraps` | include/public/idk_shm_delta.h:38-39 | the failure is real: a rectangle of 2^31 by 2^31 pixels passes with a mapping of 20 bytes |
| `ShmDelta.HeaderRoundTrip` | src/core/render/gl/tex.c:202-203 | the consumer reads back the five header fields the producer stored |
| `ShmDelta.BodySource` | include/public/idk_shm_delta.h:51-53 | every byte index the packing loop reads lies inside the source canvas |
| `ShmDelta.PacketRows` | include/public/idk_shm_delta.h:51-53 | each packed row is the contiguous piece of the canvas row it stands for, which is what makes row copies equal to byte copies |
| `ShmDelta.PackRows` | include/public/idk_shm_delta.h:48-53 | the header store and the row loop leave exactly the packet defined byte by byte in the buffer |
| `ShmDelta.Pack` | include/public/idk_shm_delta.h:44-55 | succeeds exactly for present pointers and a valid rectangle of matching capacity; then the buffer is the packet, otherwise it is untouched; every access is in bounds |
| `ShmDelta.PacketRoundTrip` | src/core/render/gl/tex.c:198-225 | validating and uploading a packet on the game's side turns its canvas into the canvas patched with exactly that rectangle of the producer's pixels |
| `ShmDiff.TightBoxIsLeast` | src/cli/webview_cef/shm_diff.h:27-30 | the box with one differing pixel on each side lies inside every rectangle that contains all differing pixels |
| `ShmDiff.TightBoxIsUnique` | src/cli/webview_cef/shm_diff.h:27-30 | there is only one such box |
| `ShmDiff.NoDifferenceMeansEqual` | src/cli/webview_cef/shm_diff.h:34-35 | there is no differing pixel if and only if the two canvases are the same bytes |
| `ShmDiff.ComparePixel` | src/cli/webview_cef/shm_diff.h:26 | the four-byte comparison decides membership in the set of differing pixels, without leaving the canvases |
| `ShmDiff.ScanRow` | src/cli/webview_cef/shm_diff.h:25-32 | scanning a row extends the bounds to every differing pixel of the row and no further |
| `ShmDiff.ScanRows` | src/cli/webview_cef/shm_diff.h:20-33 | skipping rows that compare equal finds the same bounds as looking at every pixel |
| `ShmDiff.Decide` | src/cli/webview_cef/shm_diff.h:34-39 | the half-area cut-off, with 64-bit products that cannot wrap here, picks Unchanged, Full or the tight box |
| `ShmDiff.FindDelta` | src/cli/webview_cef/shm_diff.h:15-40 | Unchanged if and only if the canvases are equal; Partial only with the tight box around all differing pixels, at less than half the area; Full otherwise or without a canvas to compare; the out-parameter is written for Partial only |
| `ShmDiff.SpecDetermines` | src/cli/webview_cef/shm_diff.h:15-40 | those conditions leave exactly one answer, so a comparison is a function of the set of differing pixels |
| `ShmDiff.DeltaRoundTrip` | src/core/render/gl/tex.c:198-225 | patching the baseline with the packet for the box found gives exactly the current frame |
| `ShmFormat.GlImageInvolution` | src/cli/webview_cef/shm_format.h:16-39 | on tight rows, flipping rows and swapping channels twice restores every byte |
| `ShmFormat.GlImageRow` | src/cli/webview_cef/shm_format.h:24-37 | row h-1-y of the byte-wise defined image is the converted source row y |
| `ShmFormat.ConvertRow` | src/cli/webview_cef/shm_format.h:27-36 | one row is converted in place and nothing around it changes |
| `ShmFormat.SwapRow` | src/cli/webview_cef/shm_format.h:29-36 | the pixel loop exchanges first and third channel of each pixel of the row and changes nothing else |
| `ShmFormat.ConvertRows` | src/cli/webview_cef/shm_format.h:24-37 | the row loop, writing upwards, produces the image defined byte by byte |
| `ShmFormat.ToGlRgba` | src/cli/webview_cef/shm_format.h:16-39 | fails, leaving the vector alone, exactly on a missing source, an empty or oversized picture or a stride below one row; otherwise yields the normalised image |
| `DirtyRoi.NormalisingKeepsAgreement` | src/cli/webview_cef/shm_format.h:16-39 | two top-left frames, of any strides, that agree outside a list of dirty rectangles have normalised images that agree outside the flipped list |
| `DirtyRoi.BoundsEnclose` | src/cli/webview_cef/view.cc:421-433 | the accumulated bounds enclose each clipped rectangle and stay in the canvas |
| `DirtyRoi.BoundsTouch` | src/cli/webview_cef/view.cc:421-433 | each side of the bounds is the side of one of the rectangles, so no smaller bounds would do |
| `DirtyRoi.ChosenRoiValidates` | src/cli/webview_cef/view.cc:418-442 | every rectangle chosen, flipped to bottom-left rows, is inside the canvas and passes validation |
| `DirtyRoi.HitIsCovered` | src/cli/webview_cef/shm_format.h:41-45 | a pixel hit by some dirty rectangle lies, after the flip, in the chosen rectangle |
| `DirtyRoi.DirtySurvivesFlip` | src/cli/webview_cef/view.cc:418-442 | canvases that agree outside the dirty list agree outside the single rectangle chosen for it |
| `DirtyRoi.ChooseShmRoi` | src/cli/webview_cef/view.cc:418-442 | the loop refuses exactly an empty, overlong or unclippable list or a box of half the canvas or more, and otherwise returns the flipped bounds |
| `Staging.StagedIsNormalised` | src/cli/webview_cef/gpubuf.cc:399-402 | flipping the driver's texture view of a linear plane gives the same bytes as normalising the mapped plane, so reading staged pixels back needs no further flip |
| `Staging.NearestFlipped` | src/cli/webview_cef/gpubuf.cc:363-367 | a mirrored nearest-neighbour blit of equal extents samples exactly the mirrored row (BlitFramebuffer, OpenGL 4.6 core, section 18.3.1), computed on pixel centres over reals |
| `Staging.FullBlitIsFlip` | src/cli/webview_cef/gpubuf.cc:367 | the full blit leaves the vertically mirrored frame, whatever was there before |
| `Staging.DirtyBlitByte` | src/cli/webview_cef/damage.h:12-24 | clipping and flipping one dirty rectangle redraws exactly the bytes it hits, with their mirrored source |
| `Staging.BlitAllByte` | src/cli/webview_cef/gpubuf.cc:359-365 | after the whole list, overlaps included, a byte is the new frame's if some rectangle hits it and the old one otherwise |
| `Staging.PartialEqualsFull` | src/cli/webview_cef/gpubuf.cc:349-368 | on an image that agrees with the new frame outside the list, the partial blits leave the same bytes as one full blit |
| `Staging.PartialHoldsIff` | src/cli/webview_cef/gpubuf.cc:349-368 | and on no other image: the partial blits leave the new frame if and only if the old image agreed with it outside the list |
| `GpuBuf.ExportHoldsIff` | src/cli/webview_cef/gpubuf.cc:323-382 | a successful export holds the whole new frame if and only if the blit was a full one or the old image agreed with the frame outside the dirty list |
| `GpuBuf.ExportHoldsFrame` | src/cli/webview_cef/gpubuf.cc:323-382 | in particular when a full blit was asked for, when the buffer was uninitialised or of another size, and when the precondition of a partial blit held |
| `GpuBuf.UnclippableFallsBack` | src/cli/webview_cef/gpubuf.cc:349-358 | a single rectangle that clipping empties sends the whole list down the full path |
| `GpuBuf.NextGeneration` | src/cli/webview_cef/gpubuf.cc:256-259 | the 16-bit identifier never becomes zero, even where it wraps |
| `GpuBuf.IdentifierSteps` | src/cli/webview_cef/gpubuf.cc:256-259 | the counter gives the n-th buffer object of a staging buffer the identifier n mod 65535 plus one |
| `GpuBuf.IdentifierRepeats` | src/cli/webview_cef/gpubuf.cc:256-259 | two buffer objects share an identifier if and only if their serial numbers are congruent modulo 65535 |
| `GpuBuf.GpuBuf.constructor` | src/cli/webview_cef/gpubuf.h:97-106 | a new staging buffer has no buffer object and generation 1 |
| `GpuBuf.GpuBuf.DestroyBo` | src/cli/webview_cef/gpubuf.cc:216-238 | nothing of the buffer object survives; the generation does |
| `GpuBuf.GpuBuf.Ensure` | src/cli/webview_cef/gpubuf.cc:240-306 | refines buffer reuse and creation: same size keeps the picture, any other outcome leaves the buffer uninitialised and with a new identifier once memory was allocated |
| `GpuBuf.GpuBuf.Advance` | src/cli/webview_cef/gpubuf.cc:256-259 | refines the step of the 16-bit counter, wrap-around included |
| `GpuBuf.GpuBuf.Export` | src/cli/webview_cef/gpubuf.cc:323-382 | refines the export specification, flags and failure paths included |
| `GpuBuf.GpuBuf.Blits` | src/cli/webview_cef/gpubuf.cc:359-365 | the rectangle loop applies the blits first to last |
| `GpuBuf.GpuBuf.Read` | src/cli/webview_cef/gpubuf.cc:386-404 | reads back exactly the staged picture or nothing, and changes nothing |
| `ControlWire.AckRoundTrip` | src/core/transport/socket/ack.c:8-18 | the 16 bytes of an acknowledgement, negative sizes included, read back as it was, whatever follows them |
| `ControlStream.WaitAckTakesRecords` | src/core/transport/socket/ack.c:34-69 | on any prefix of any records, wait_ack takes whole records only, ends on a record boundary, queues exactly the requests it passed, returns the first acknowledgement it meets and never drops the connection |
| `ControlStream.WaitAckRecords` | src/core/transport/socket/ack.c:34-69 | the byte loop and its description in records are the same function |
| `ControlStream.RecvFreshTakesRecords` | src/core/transport/socket/request.c:57-93 | the same for recv_request: whole records, a boundary after it, the request it took last returned, only acknowledgements dropped before it, and none by the preserving call |
| `ControlStream.RecvFreshRecords` | src/core/transport/socket/request.c:57-93 | the byte loop and its description in records are the same function |
| `ControlStream.AcksSplit` | src/core/transport/socket/ack.c:61-67 | the acknowledgements of a stream are those of what was taken followed by those of what was not |
| `ControlSocket.QueueKeepsShutdown` | src/core/transport/socket/ack.c:51-54 | the one-byte queue ends at SHUTDOWN if and only if it held one or one was met, whatever NEXT_FRAMEs surround it |
| `ControlSocket.WaitAckHistory` | src/core/transport/socket/ack.c:20-70 | what wait_ack returns is the next acknowledgement sent: taken so far, plus it, plus what is unread is all that was sent |
| `ControlSocket.RecvFreshHistory` | src/core/transport/socket/request.c:41-94 | the same for recv_request; the preserving call takes none, and a SHUTDOWN it takes it returns |
| `ControlSocket.ControlSocket.constructor` | src/core/transport/socket/internal.h:12-22 | a fresh connection: nothing unread, nothing queued |
| `ControlSocket.ControlSocket.AwaitAck` | src/core/transport/socket/ack.c:20-70 | keeps, with bytes arriving in arbitrary chunks between calls, that unread bytes start at a record boundary, that delivered or dropped acknowledgements in order are a prefix of those sent, and that a SHUTDOWN met stays owed |
| `ControlSocket.ControlSocket.AwaitLoop` | src/core/transport/socket/ack.c:34-69 | the peek-then-consume loop is the specified demultiplexer; it is connected after it unless the bytes were malformed |
| `ControlSocket.ControlSocket.ReceiveRequest` | src/core/transport/socket/request.c:41-94 | keeps the same facts; while connected, an owed SHUTDOWN is returned by this call; the preserving call takes no acknowledgement |
| `ControlSocket.ControlSocket.ReceiveLoop` | src/core/transport/socket/request.c:57-93 | the loop is the specified one |
| `ControlSocket.ControlSocket.Disconnect` | src/core/transport/socket/init.c:43-51 | the queue and the unread bytes end with the connection |
| `ViewState.SentRoiFits` | src/cli/webview_cef/view.cc:450-460 | whichever way the rectangle was chosen, it lies inside the canvas with sound fields, so packing it cannot fail |
| `ViewState.Target` | src/cli/webview_cef/view.cc:533 | the staging buffer picked to be written is never the one in flight |
| `ViewState.StageInto` | src/cli/webview_cef/view.cc:308-312 | a staging blit leaves the in-flight buffer as it was, changes nothing but the target and the acknowledged pointer to it, and on success the target has the frame's size |
| `ViewState.StagedKeeps` | src/cli/webview_cef/view.cc:533-547 | an unsuccessful blit into the target never breaks the snapshot kept there beyond leaving it uninitialised |
| `ViewState.ConsumedSteps` | src/cli/webview_cef/view.cc:742-755 | one turn of the poll loop consumes one answer more and stops at SHUTDOWN or at the limit |
| `ViewFacts.NewShadowIsNext` | src/cli/webview_cef/view.cc:495-502 | the rectangle-patched snapshot equals the new picture whenever the snapshot agreed with it outside the rectangle sent |
| `ViewFacts.VerdictCovers` | src/cli/webview_cef/view.cc:620-639 | Unchanged means the kept picture is the acknowledged canvas; a verified rectangle covers all that differs |
| `ViewFacts.DirectRoiCovers` | src/cli/webview_cef/view.cc:444-460 | a direct send counted as whole makes the canvas snapshot the newest paint: in full, or by a rectangle of an honest list over the paint before |
| `ViewFacts.MappedIsPicture` | src/cli/webview_cef/view.cc:384-413 | normalising the mapped plane gives the same picture as staging it |
| `ViewFacts.StageKeeps` | src/cli/webview_cef/view.cc:308-312 | neither the in-flight buffer nor the one the acknowledged pointer names is written by a staging blit |
| `ViewFacts.FullStageHolds` | src/cli/webview_cef/view.cc:533-547 | a successful full blit leaves exactly the new paint in the buffer recorded as deferred |
| `ViewFacts.PartialStageHolds` | src/cli/webview_cef/view.cc:272-278 | a direct capture counted as whole leaves exactly its picture in the main buffer, after a full blit or after a dirty-only one onto the capture before |
| `ViewFacts.StartFacts` | src/cli/webview_cef/view.h:115-149 | the initial field values satisfy every fact |
| `ViewFacts.CapturedKeeps` | src/cli/webview_cef/view.cc:251-262 | noting a newest capture keeps every fact |
| `ViewFacts.OnPaintKeeps` | src/cli/webview_cef/view.cc:225-249 | a software paint, in every state and for every system answer, keeps accounting, frozen buffers, the canvas snapshot and the whereabouts of the newest paint |
| `ViewFacts.OnAcceleratedPaintKeeps` | src/cli/webview_cef/view.cc:251-291 | an accelerated paint keeps them, on the dma-buf, forwarding and shared-memory paths |
| `ViewFacts.CacheDeferredGpuKeeps` | src/cli/webview_cef/view.cc:527-570 | so does keeping an accelerated paint while busy, staged or mapped |
| `ViewFacts.MaybeSendDeferredKeeps` | src/cli/webview_cef/view.cc:603-652 | so does sending what was kept, reading it back or finding it unchanged |
| `ViewFacts.ReadBackKeeps` | src/cli/webview_cef/view.cc:607-614 | the pixels read back are the snapshot that was staged |
| `ViewFacts.ProcessAckKeeps` | src/cli/webview_cef/view.cc:774-853 | so does an accepted, rejected or discarded frame, with or without a new size, and nothing is pending after it |
| `ViewFacts.KeepRefusedKeeps` | src/cli/webview_cef/view.cc:801-830 | a refused frame that held the newest paint is deferred again, never over a newer one |
| `ViewFacts.ResizedKeeps` | src/cli/webview_cef/view.cc:834-847 | a new size drops every snapshot and pointer without breaking a fact |
| `ViewFacts.PollSocketKeeps` | src/cli/webview_cef/view.cc:726-767 | so does one poll with any acknowledgement and any requests |
| `ViewFacts.KeepHiddenKeeps` | src/cli/webview_cef/view.cc:904-920 | hiding keeps the picture shown or in flight as the deferred snapshot |
| `ViewFacts.SetOverlayVisibleKeeps` | src/cli/webview_cef/view.cc:899-925 | so do hiding and showing |
| `ViewFacts.ConnectTaskKeeps` | src/cli/webview_cef/view.cc:656-722 | so do connecting, disconnecting and failing to connect |
| `ViewFacts.ScribbledKeeps` | src/core/render/gl/tex.c:177-180 | an upload of the game into a staging buffer keeps every fact, told with its author |
| `ViewFacts.ScribbleKeepsNewestIff` | src/core/render/gl/tex.c:177-180 | the newest paint survives such an upload if and only if that buffer is not the one place where it is kept, or the upload changes nothing |
| `ViewFacts.ScribbleBreaksIff` | src/core/render/gl/tex.c:177-180 | every buffer a pointer names keeps its recorded pixels if and only if no pointer names that buffer, or the upload changes nothing |
| `ViewSends.OnPaintSends` | src/cli/webview_cef/view.cc:225-249 | a paint sends at most one frame, only without one in flight, and a rectangle only when the baseline is valid and patching it moves the old snapshot to the new |
| `ViewSends.OnAcceleratedPaintSends` | src/cli/webview_cef/view.cc:251-382 | the same for accelerated paints |
| `ViewSends.MaybeSendDeferredSends` | src/cli/webview_cef/view.cc:603-652 | the same for a kept snapshot |
| `ViewSends.SetOverlayVisibleQuiet` | src/cli/webview_cef/view.cc:899-925 | hiding and showing send nothing and leave the buffers and the frame in flight alone |
| `ViewSends.OnPaintRests` | src/cli/webview_cef/view.cc:235-248 | a paint leaves nothing kept and nothing in flight only if that was so before or its picture is the acknowledged canvas |
| `ViewSends.MaybeSendDeferredRests` | src/cli/webview_cef/view.cc:626-636 | a kept snapshot is dropped unsent only if it equals the acknowledged canvas |
| `ViewSends.ProcessAckAcknowledges` | src/cli/webview_cef/view.cc:774-853 | the baseline becomes valid only by accepting a shared-memory frame, with the snapshot unchanged; the view rests only on an accepted frame; the render size is the acknowledgement's if it carries one |
| `ViewSends.RefusedDefers` | src/cli/webview_cef/view.cc:801-830 | refusing invalidates the baseline and never leaves the view with nothing to resend |
| `View.PatchShadow` | src/cli/webview_cef/view.cc:495-498 | the row loop patches exactly the rectangle into the snapshot |
| `View.PatchGrows` | src/cli/webview_cef/view.cc:496-498 | one more row of the loop is one more row of the rectangle |
| `View.View.constructor` | src/cli/webview_cef/view.h:115-149 | a new view is in the initial state and owns its two staging buffers |
| `View.View.SendShmPixels` | src/cli/webview_cef/view.cc:444-511 | refines the send: rectangle or full payload, snapshot patched or replaced, nothing changed on failure |
| `View.View.CacheDeferredPixels` | src/cli/webview_cef/view.cc:516-525 | refines keeping a software paint |
| `View.View.CacheDeferredGpu` | src/cli/webview_cef/view.cc:527-570 | refines keeping an accelerated paint |
| `View.View.SendOwnedGpu` | src/cli/webview_cef/view.cc:572-601 | refines sending a staged buffer; succeeds exactly for a present buffer whose send goes through |
| `View.View.Compare` | src/cli/webview_cef/view.cc:620-639 | the loops of FindDelta give the one verdict that the specification uses |
| `View.View.MaybeSendDeferred` | src/cli/webview_cef/view.cc:603-652 | refines sending what was kept |
| `View.View.OnPaint` | src/cli/webview_cef/view.cc:225-249 | refines the software paint callback over the whole state, both staging buffers included |
| `View.View.OnAcceleratedPaint` | src/cli/webview_cef/view.cc:251-291 | refines the accelerated paint callback |
| `View.View.SendFrameDmaBuf` | src/cli/webview_cef/view.cc:295-382 | refines the dma-buf path with its forwarding fallback |
| `View.View.SendShmFromDmaBuf` | src/cli/webview_cef/view.cc:384-413 | refines the mapped path |
| `View.View.Receive` | src/cli/webview_cef/view.cc:740-755 | the bounded request loop reports whether a NEXT_FRAME or a SHUTDOWN came among the answers it consumed |
| `View.View.PollSocket` | src/cli/webview_cef/view.cc:726-767 | refines one poll |
| `View.View.ProcessAck` | src/cli/webview_cef/view.cc:774-853 | refines the handling of an acknowledgement |
| `View.View.SetOverlayVisible` | src/cli/webview_cef/view.cc:899-925 | refines hiding and showing |
| `View.View.ConnectTask` | src/cli/webview_cef/view.cc:656-722 | refines the connection task |
| `View.View.OnLoadEnd` | src/cli/webview_cef/view.cc:73-80 | refines the end of a page load: only the first real page of the main frame counts, and it asks the page for a frame exactly if one is wanted and may be sent |
| `PipelineFacts.ViewMoves` | src/cli/webview_cef/view.cc:444-511 | any callback that sends at most one frame, as the view's do, keeps what the game shows consistent with what the view believes |
| `PollFacts.ReadTakes` | src/cli/webview_cef/view.cc:730-755 | one poll on a stream with at most the one acknowledgement awaited: the only acknowledgement among the records taken is the one handed over, its requests hold no more NEXT_FRAMEs than those records and a SHUTDOWN if and only if they do, and nothing stays queued |
| `PollFacts.ReadIsWaitAck` | src/core/transport/socket/ack.c:34-69 | the poll of the composition hands over what the byte-level wait_ack returns, queues what it queues and leaves the stream at a boundary |
| `PollFacts.ReadIsRecvRequest` | src/core/transport/socket/request.c:41-94 | each receive of the poll returns what the byte-level recv_request returns, and the poll goes on with what that leaves |
| `PipelineFacts.PollMoves` | src/cli/webview_cef/view.cc:726-767 | a poll of whatever has arrived keeps what the game shows consistent with what the view believes |
| `PipelineFacts.AckMoves` | src/cli/webview_cef/view.cc:730-736 | taking an acknowledgement keeps them consistent |
| `PipelineFacts.ShowPictures` | src/core/render/gl/render.c:24-58 | if showing the frame in flight is accepted, the texture or the memory behind it has the view's snapshot, or the texture samples the buffer in flight |
| `PipelineFacts.DrawnView` | src/core/render/gl/tex.c:155-180 | the view's buffers after a turn differ by at most the upload into one of them, and every fact of the view still holds |
| `PipelineFacts.ServedPictures` | src/core/render/gl/render.c:16-58 | the code of the acknowledgement, decided after the frame was applied, is truthful about the screen |
| `PipelineFacts.TurnMoves` | src/core/compositor/frame.c:53-114 | a visible turn of the game, on the newest or an abandoned connection, even one that ends during the turn, keeps the invariant |
| `PipelineFacts.HiddenMoves` | src/core/compositor/frame.c:38-50 | so does a hidden turn, which answers DISCARDED and never ACCEPTED |
| `PipelineFacts.SteppedKeeps` | src/cli/webview_cef/view.cc:225-291 | every enabled step of view, connection or game keeps the invariant of the whole pipeline |
| `PipelineRuns.RunKeeps` | src/cli/webview_cef/view.cc:726-767 | the invariant holds in every state of every run |
| `PipelineRuns.MirrorCoherence` | src/core/render/gl/tex.c:126-225 | in every reachable state, while connected with a valid baseline and nothing in flight, the picture of a texture that is alive, read from its own pixels or from the buffer object it samples, equals the view's snapshot byte for byte; unless it is imported memory that the view has staged into since the upload |
| `PipelineRuns.NoLostUpdate` | src/cli/webview_cef/view.cc:774-832 | in every reachable state of a live connection, if the newest paint could itself be stored or sent whole and was not uploaded over, it is the deferred snapshot, or the frame in flight, or what the game draws, whatever became of earlier paints; the excuses describe the texture shown now |
| `PipelineRuns.BuffersKeepTheirPictures` | src/cli/webview_cef/view.cc:533-547 | over every run the view never writes the buffer in flight, and the buffers in flight, acknowledged or deferred hold what they were recorded with unless the game uploaded into them |
| `PipelineRuns.IntactIff` | src/core/render/gl/tex.c:155-180 | over a whole run all of them hold it in every state if and only if no turn uploads other pixels into a buffer that a pointer names, which the turn's first frame and the back or current slot tell beforehand |
| `PipelineRuns.NewestSurvivesIff` | src/core/render/gl/tex.c:155-180 | the newest paint survives a turn of any run if and only if that turn does not upload other pixels into the one buffer that holds it |
| `Mirror.CallbackBlits` | src/cli/webview_cef/view.cc:251-312 | each callback changes the staging buffers by at most the one blit told from its arguments |
| `Mirror.StepExactIff` | src/core/render/gl/tex.c:126-225 | if what the view relies on holds on screen without exception (the snapshot, or that the rectangle under way completes it), it holds after a step of view, connection or game if and only if the step does not paint over it, that is blit other pixels into the memory on screen |
| `Mirror.PaintsOverPlainly` | src/cli/webview_cef/view.cc:308-312 | while the snapshot is due on screen before and after, that is exactly a blit which leaves a live buffer object with other pixels than those on screen |
| `Mirror.MirrorIff` | src/core/render/gl/tex.c:126-225 | in any stretch of a run that starts with the mirror exact, as every run does, it is exact in each state if and only if no step paints over it |
| `Mirror.MirrorSinceFull` | src/core/render/gl/tex.c:126-194 | the same since the last accepted whole frame, whatever had been painted over before it |
| `Mirror.MirrorStateIff` | src/core/render/gl/tex.c:126-194 | of a single state: as long as the snapshot is due on screen, the texture equals it if and only if no blit went into its memory since the accepted whole frame, or the last one that did left the snapshot there |
| `Mirror.NewestShownIff` | src/cli/webview_cef/view.cc:620-639 | at rest after a shared-memory frame the newest paint is on screen if and only if the mirror is exact |
| `Mirror.NewestOnScreen` | src/cli/webview_cef/view.cc:774-832 | if no step of a stretch paints over the screen, the newest paint that was kept is deferred, in flight or drawn; the exceptions left are a wrong buffer, a deleted texture and memory that is not followed |
| `Captures.StepDisarms` | src/cli/webview_cef/view.cc:272-291 | only sending a capture from its own callback lets the next one be blitted by its dirty rectangles; every other step leaves that, and the capture it follows, as they are or forbids it |
| `Captures.DirtyBlitHasBase` | src/cli/webview_cef/view.cc:272-278 | in a run in which no capture was forwarded after failed staging, a dirty-only blit is asked for only for the capture numbered next after the last one sent, and lands on exactly what was sent for that, unless the game uploaded there |
| `Captures.DirtyBlitHasPicture` | src/cli/webview_cef/view.cc:272-278 | if every dirty-only blit of the run also covered what had changed since the capture before, it lands on exactly the picture of that capture |
| `PipelineRuns.Accounting` | src/core/transport/socket/ack.c:20-70 | frames sent are acknowledgements processed plus one if a frame is pending; frames under way and unread acknowledgements together are at most that one |
| `PipelineRuns.NoAckDiscarded` | src/core/transport/socket/request.c:77-91 | whatever prefix of the stream a poll takes, the dropping of stale acknowledgements never meets a live one |
| `Requests.FramesWereAskedFor` | src/cli/webview_cef/view.cc:740-766 | frames sent on a connection never exceed the NEXT_FRAME records the view took off its stream, and those never exceed what the game put on it and is no longer unread |
| `Requests.ShutdownSurvives` | src/cli/webview_cef/view.cc:740-751 | a SHUTDOWN the game put on the stream is unread, or the view has quit, whatever it was mixed with |
| `Sizes.RunSizes` | src/core/compositor/helpers.c:35-47 | in every run the game's latest size is pending, or carried by every unread sized acknowledgement, or already the view's, or its acknowledgement was lost |
| `Sizes.ResizeConverges` | src/cli/webview_cef/view.cc:834-846 | with the latest size not pending, not lost and no acknowledgement unread, the view renders at it, whatever happened to sizes before |
| `Sizes.LostSizeStaysLost` | src/core/compositor/helpers.c:41-46 | once the acknowledgement with the latest size is lost, both sizes stay what they are through every further step and connection until the game is notified of another: they agree if and only if they agreed when it was lost |
| `Limits.DirectPaintKept` | src/cli/webview_cef/view.cc:242-248 | a software paint at a ready view, the first of a connection included, survives if and only if its send goes through or it changes nothing |
| `Limits.ForwardedLeavesBase` | src/cli/webview_cef/view.cc:341-382 | after a staging failure that touches nothing, the forwarded and accepted CEF buffer leaves the old staging image, its capture number and dirty-only blits enabled |
| `Limits.ForwardedThenDirtyIff` | src/cli/webview_cef/view.cc:272-291 | the next capture in number then goes out with its own picture if and only if its blit was a full one or that old image agreed with it outside its dirty list |
| `Limits.FirstExportIsTwo` | src/cli/webview_cef/gpubuf.h:106 | the first export of either staging buffer carries identifier 2 |
| `Limits.RunReflects` | src/core/render/gl/render.c:39-48 | in every run the cached identifier and the texture are what the frames accepted so far make of them |
| `Limits.WrongBufferIff` | src/core/render/gl/render.c:39-48 | a turn of a run accepts a staged frame without its buffer on screen if and only if the frame repeats, modulo 65535, the serial number of the object imported last and is another object or finds that texture deleted |
| `Limits.CollidedIff` | src/core/render/gl/render.c:39-48 | the wrong buffer is on screen in a state of a run if and only if the turn accepted last was such a one |
| `Limits.RunOwn` | src/core/render/gl/tex.c:39-82 | as long as imports go through EGL images, no texture is over memory an upload could reach, and no turn of the run uploads into a buffer |
| `Limits.MirrorIsExact` | src/core/render/gl/tex.c:126-225 | then every buffer a pointer names holds its recorded pixels, and mirror coherence has no exception but a texture the game deleted |
| `Limits.NewestIsDisplayed` | src/core/render/gl/render.c:24-58 | and if no frame collides either, the newest paint that was kept is deferred, in flight, or drawn, with no exception but a deleted texture |
| `Episodes.WrongBufferHappens` | src/core/render/gl/render.c:39-48 | a run from the initial state in which the second frame is accepted and the first stays on screen at rest |
| `Episodes.StaleBaseHappens` | src/cli/webview_cef/view.cc:341-382 | a run in which the third capture, its dirty list honest, goes out with pixels of the first |
| `Episodes.ErasureHappens` | src/core/render/gl/tex.c:155-180 | a run without collision in which a full upload turns the deferred newest paint into the frame before it |
| `Episodes.MirrorBreaks` | src/core/render/gl/tex.c:155-180 | a run in which the texture of an accepted shared-memory frame shows a later capture while the snapshot is still the baseline |
| `Episodes.NewestNotShown` | src/cli/webview_cef/view.cc:620-636 | a run to rest in which an unchanged capture is skipped although its own failed blit went over the picture on screen |
| `Episodes.SizeLostHappens` | src/core/compositor/helpers.c:41-46 | a run to rest, connected again, in which the acknowledgement with the new size could not be sent and the view renders at the old size |
| `Descriptors.LedgerClose` | src/core/compositor/frame.c:12-17 | closing a held descriptor and clearing its entry keeps every open descriptor in exactly one entry |
| `Descriptors.LedgerMove` | src/core/render/gl/tex.c:73 | so does moving it to an empty entry |
| `Descriptors.LedgerAdd` | src/core/compositor/frame.c:76-80 | so does taking in descriptors that were not open |
| `Descriptors.CloseRange` | src/core/compositor/frame.c:9-19 | the loop closes each descriptor of the array exactly once and no other |
| `Descriptors.CloseLocal` | src/core/compositor/frame.c:66-74 | the same for the descriptors of a frame that is not kept |
| `Scm.ScannedIsPrefix` | src/core/transport/socket/scm.c:54-71 | the descriptors copied out are a prefix of those received, and all of them unless a control message is malformed |
| `Scm.SoundLeaksNothing` | src/core/transport/socket/scm.c:54-71 | of control messages of sound length with at most four descriptors in all, which is what a kernel delivers into this buffer, no descriptor is left uncopied |
| `Scm.Collect` | src/core/transport/socket/scm.c:54-71 | the loop over control messages copies exactly the scan's descriptors, at most four |
| `Scm.RecvFds` | src/core/transport/socket/scm.c:21-80 | succeeds exactly for a complete, well-formed message with descriptors; a failed receive leaves none of those it copied open, and exactly the uncopied rest of a malformed message leaks |
| `Scm.CloseReceived` | src/core/transport/socket/scm.c:9-19 | closes the received ones and only those |
| `GlConsumer.GlConsumer.constructor` | src/core/render/gl/tex.c:15-21 | the game starts with blank slots and no descriptor |
| `GlConsumer.GlConsumer.CloseFrameFds` | src/core/compositor/frame.c:9-19 | the kept frame's descriptors are closed, each once |
| `GlConsumer.GlConsumer.DisconnectClient` | src/core/compositor/frame.c:21-26 | nothing of the kept frame stays open and nothing is drawn any more |
| `GlConsumer.GlConsumer.KeepFrame` | src/core/compositor/frame.c:76-84 | the previous frame's descriptors are closed before the new ones are taken in |
| `GlConsumer.GlConsumer.TakeOne` | src/core/compositor/frame.c:66-88 | a frame received with its control messages is kept if it is the first usable one of its batch and closed otherwise |
| `GlConsumer.GlConsumer.ReceiveOne` | src/core/transport/socket/scm.c:21-80 | from recvmsg on: the descriptors of a message of sound control messages are all kept or all closed, whether the receive succeeds or fails |
| `GlConsumer.GlConsumer.DropOne` | src/core/transport/socket/io.c:17-30 | a dropped frame is received and all its descriptors closed |
| `GlConsumer.GlConsumer.KeepLastFrame` | src/core/compositor/frame.c:53-88 | the first usable frame of a batch is kept, all others are closed unseen, and a lost connection closes that one too; every open descriptor stays in exactly one entry |
| `GlConsumer.GlConsumer.DrainHidden` | src/core/compositor/frame.c:38-50 | every queued frame is dropped with its descriptors and answered once |
| `GlConsumer.GlConsumer.RecvFrame` | src/core/compositor/frame.c:90-114 | hidden turns only drop; visible turns keep the first usable frame and ask for one frame, or two after being hidden |
| `GlConsumer.GlConsumer.ReleaseBacking` | src/core/render/gl/tex.c:25-37 | the slot's descriptor is closed once, the other slot untouched |
| `GlConsumer.GlConsumer.ShmToTexture` | src/core/render/gl/tex.c:126-194 | refines the full upload into the back slot, releasing an imported backing first; what is uploaded into imported memory is exactly the write that the composition applies to the buffer object |
| `GlConsumer.GlConsumer.ShmRectToTexture` | src/core/render/gl/tex.c:198-225 | refines the rectangle upload into the slot shown; refused for backed, missing or differently sized textures; writes into imported memory as the composition says |
| `GlConsumer.GlConsumer.GlImportFrame` | src/core/render/gl/tex.c:42-82 | the EGL path moves the descriptor to the texture, the other paths close it; afterwards no entry but the texture's holds it |
| `GlConsumer.GlConsumer.ShowDma` | src/core/render/gl/render.c:39-49 | refines cache hit and import with the same fate of the descriptor |
| `GlConsumer.GlConsumer.ShowKept` | src/core/render/gl/render.c:24-57 | refines the choice of path and the acknowledgement code; no descriptor is left twice or nowhere |
| `GlConsumer.GlConsumer.Render` | src/core/render/gl/render.c:16-58 | one turn is receive, show, answer, exactly as in the composed transition system; after it no descriptor of the frame is held except by a texture |
| `GlConsumer.GlConsumer.DropTexture` | src/core/render/gl/errors.c:43-59 | a texture that keeps failing takes its backing with it |
| `GlConsumer.GlConsumer.Shutdown` | src/core/render/gl/context.c:50-59 | nothing is held or open after shutdown |
| `GlConsumer.FramesSnoc` | src/core/compositor/frame.c:66-84 | one more receive adds its frame to the batch if and only if it is usable |
| `Resize.StableIff` | src/core/compositor/helpers.c:24-31 | the millisecond test, with C's truncating division, fires exactly when the whole time has passed or, if the nanoseconds are behind, when less than a millisecond is missing |
| `Resize.StableIsPrompt` | src/core/compositor/helpers.c:24-31 | never a full millisecond early, always once the time is up |
| `Resize.StableMayBeEarly` | src/core/compositor/helpers.c:29 | the early millisecond is real |
| `Resize.StableStays` | src/core/compositor/helpers.c:24-31 | on an unchanged stamp and a clock that does not go back the test stays true |
| `Resize.TruncDiv` | src/core/compositor/helpers.c:29 | the quotient is rounded toward zero on both sides |
| `Resize.SurfaceSize.NotifyResize` | src/core/compositor/helpers.c:9-22 | only a real change restarts the debounce, as the composed system assumes |
| `Resize.SurfaceSize.BuildAck` | src/core/compositor/helpers.c:35-47 | the size is handed out once, when stable, as the composed system assumes |
| `FrameSlot.SaneStep` | src/core/transport/shm/producer.c:104-129 | each atomic step of either side, failed receives included, keeps that frame words are written only while the slot holds no frame |
| `FrameSlot.ExclusiveAndWhole` | src/core/transport/shm/consumer.c:125-147 | under every interleaving the consumer never reads words the producer is writing, and every frame it takes is one frame sent, whole |
| `FrameSlot.CountNeverRefused` | src/core/transport/shm/consumer.c:129-135 | the descriptor count of a frame taken is always in range, so the consumer's protocol error is never reached |
| `FrameSlot.OrderlyStep` | src/core/transport/shm/ack.c:10-11 | each step of a producer that waits for its acknowledgements keeps the stage invariant, the SLOT_EMPTY that copying an acknowledgement stores included |
| `FrameSlot.FramesAndAcksMatch` | src/core/transport/shm/producer.c:135-179 | for such a producer the k-th frame taken is the k-th sent and the acknowledgements read are those given, one for each frame in order |
| `FrameSlot.AckOverwritesNoFrame` | include/core/shm_layout.h:17-18 | storing SLOT_ACK then never hits an unseen frame |
| `FrameSlot.ImpatienceLosesFrame` | src/core/transport/shm/producer.c:104-107 | a producer that sends between the two stores loses its frame |
| `CursorSeqlock.BeginStep` | src/core/transport/shm/input.c:96-100 | starting a write moves the counter past every version a reader may be copying, also after a writer that died |
| `CursorSeqlock.StoringKeepsReader` | src/core/transport/shm/input.c:101-103 | while bytes change the counter is odd, so no reader can finish on them |
| `CursorSeqlock.FinishStep` | src/core/transport/shm/input.c:104-105 | completing a write publishes exactly the update being sent |
| `CursorSeqlock.RecheckStep` | src/core/transport/shm/input.c:127-132 | an unchanged counter proves the copy whole |
| `CursorSeqlock.Step` | src/core/transport/shm/input.c:89-135 | every step keeps the invariant |
| `CursorSeqlock.DeliveredWhole` | src/core/transport/shm/input.c:109-135 | every update delivered is header and pixels of one completed send, and versions delivered strictly increase |
| `CursorSeqlock.CopyBounded` | src/core/transport/shm/input.c:121-126 | however torn the header it read, the reader never copies more than its capacity |
| `InputMailbox.Step` | src/core/transport/shm/input.c:8-74 | every step of sender, receiver or reset keeps the invariant |
| `InputMailbox.ExactlyOnceInOrder` | src/core/transport/shm/input.c:8-74 | in every run, between resets, events delivered followed by the one in the slot are those of the sends that returned success, each once, in order, and of no refused one; no event is read while it is written |
| `InputMailbox.RefusedIff` | src/core/transport/shm/input.c:15-39 | in every run a send fails with EAGAIN if and only if it found the slot full at each look it may take, one, or 52 for state and overlay events; and with ECONNRESET only after the receiver left |
| `InputMailbox.GoneRefusesAll` | src/core/transport/shm/input.c:15-18 | once the receiver left, every send fails at once until a reset |
| `FenceRing.SubmitClean` | src/core/render/vk/ring.c:110-150 | a submission, failed submits and resets included, keeps that each job is destroyed once or in one slot |
| `FenceRing.ShutdownClean` | src/core/render/vk/ring.c:156-183 | so does a shutdown |
| `FenceRing.RunClean` | src/core/render/vk/ring.c:70-183 | so does every run of submissions and shutdowns in which waits and fence creations succeed |
| `FenceRing.DestroyedOnceInTime` | src/core/render/vk/ring.c:70-151 | at every moment each job has been destroyed at most once, never before a wait showed it finished, and the others, at most two, are in the slots |
| `FenceRing.AllDestroyedAfterShutdown` | src/core/render/vk/ring.c:165-180 | after a shutdown each job has been destroyed exactly once |
| `FenceRing.JobsConserved` | src/core/render/vk/ring.c:70-183 | in every run, whatever waits and creations fail, each job given is destroyed, in a slot or leaked, as often as it was given |
| `FenceRing.LeaksIff` | src/core/render/vk/ring.c:113-136 | a run leaks a job if and only if, at some submission, the wait for the job of the reused slot fails or a job whose fence was not recreated is queued over |
| `FenceRing.LeakHappens` | src/core/render/vk/ring.c:113-136 | three submissions of which the last waits in vain leak the first job |
| `FenceRing.EarlyIff` | src/core/render/vk/ring.c:89-102 | a run of distinct jobs destroys one that was submitted and not seen finished if and only if the wait of a synchronous submission, or of a shutdown for an occupied slot, failed |
| `FenceRing.EarlyHappens` | src/core/render/vk/ring.c:165-172 | a shutdown whose wait fails destroys its job early |
| `FenceRing.VkRing.constructor` | src/core/render/vk/ring.c:81-83 | the ring starts without fences and jobs |
| `FenceRing.VkRing.CreateFences` | src/core/render/vk/ring.c:81-106 | both fences exist after it or neither does |
| `FenceRing.VkRing.Reclaim` | src/core/render/vk/ring.c:114-136 | refines waiting for a slot and freeing it |
| `FenceRing.VkRing.Enqueue` | src/core/render/vk/ring.c:138-150 | refines submission with its immediate clean-up |
| `FenceRing.VkRing.RingSubmit` | src/core/render/vk/ring.c:70-151 | refines a submission, the synchronous fallback included; returns 0 exactly if the job went to the queue |
| `FenceRing.VkRing.CloseSlot` | src/core/render/vk/ring.c:165-180 | refines the closing of one slot |
| `FenceRing.VkRing.RingShutdown` | src/core/render/vk/ring.c:156-183 | refines the shutdown |
| `SharedMemory.CopiedAll` | src/core/transport/shm/consumer.c:128 | a copy whose words all moved, in whatever order, is the original |

## Left out

- PipelineRuns.NoLostUpdate: says nothing while the newest paint's own staging or sending failed or its partial update was not honest, because the source then really loses it (`Limits.DirectPaintKept`, `Limits.ForwardedThenDirtyIff`); it excuses a texture that GL deleted, the wrong buffer accepted last (exact condition in `Limits.CollidedIff`), and imported memory staged into (exact condition in `Mirror.MirrorStateIff` and `Mirror.NewestShownIff`).
- PipelineRuns.MirrorCoherence: excepts a texture of imported memory that the view has staged into since the upload, because the canvas then really can differ; exactly when is in `Mirror.MirrorIff` and `Mirror.MirrorStateIff`. What CEF paints into its own pooled buffers, and a texture announced with another size than its buffer object has, are not followed.
- Sizes.ResizeConverges: assumes that the latest size was not lost with its acknowledgement, because the game clears its pending flag when it builds the acknowledgement, not when the view reads it (`Sizes.LostSizeStaysLost`).
- Scm.RecvFds: states the leak of uncopied descriptors of a malformed message as it is, rather than that nothing leaks.
- ShmDiff.FindDelta: requires `w * h * 4` to fit 64 bits; beyond that the source's own guard wraps and the canvas could not exist in memory.
- ShmDelta.Pack: requires the whole packet of the canvas to fit 64 bits; what validation does beyond that is in `ShmDelta.ValidateSizeMeaning`.
- FenceRing.DestroyedOnceInTime: requires that fence waits and creations succeed; what holds and fails otherwise is in `FenceRing.JobsConserved`, `FenceRing.LeaksIff` and `FenceRing.EarlyIff`.
- The composition's control stream is a sequence of records; `PollFacts.ReadIsWaitAck` and `PollFacts.ReadIsRecvRequest` connect each receive of a poll to the bytes.
- Weak memory: the shared-memory models assume sequential consistency.
- A seqlock counter that wraps: the model's counter is unbounded.
- Futex timing, the health thread, process identifiers, `pidfd_getfd` and its cached descriptor, and the REQUEST type over shared memory.
- The producer's rate counters, JavaScript events, script injection and the URL; of begin-frame nudges only the decision at the end of a page load.
- A new connection's reset of the game's cursor counter and input state.
- The game's mapping cache for shared-memory frames: mapping is one yes-or-no answer and yields what the producer wrote.
- GL state save and restore, unpack state, shaders, blending, texture parameters, object creation and symbol resolution; a texture is its pixels or the buffer it samples.
- Buffer strides, fourccs and modifiers of dma-bufs: staged buffers are pictures, forwarded buffers are opaque.
- The Vulkan frame receive and upload path: it acknowledges before uploading, so mirror coherence is a property of the GL consumer.
- `ring_begin_cmd` and `ring_cooldown_active`: an allocation and a clock comparison with nothing to conserve.
- The Qt webview, its pacing and its export code.
- Wayland and X11 input, hotkeys, keysym and cursor tables, configuration, the broker, injection, the .NET client, socket set-up, logging and paths.
