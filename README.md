# nvJPEG colour decoder of libk4w2, modelled in Dafny

libk4w2 decodes the Kinect v2 colour stream with a pluggable decoder. The
plugin in `src/decoder_cuda/color_nvjpeg.c` works on the GPU through nvJPEG.
It owns one nvJPEG handle, one CUDA stream and a pool of `num_slot` decode
slots. Each slot has a JPEG decode state, a device buffer for one 1920x1080
RGB frame, and optionally an OpenGL texture registered with CUDA. The host
calls the plugin through its operation table:

- `open` creates the handle, the stream and the slots. When asked, it also
  creates the textures.
- `request` enqueues phases one and two of a JPEG decode on slot
  `slot % num_slot` and stores phase 2 in that slot.
- `fetch` finishes the decode with phase three, at most once per request
  or per open, and then copies the frame out.
- `get_gl_texture` does the same finishing step and then maps the slot's
  graphics resource and returns its texture name.
- `close` releases everything it finds set and clears the fields, so a
  later close skips them.
- `get_colorspace` always answers RGB.

The model has five modules:

- `Trace`: the foreign calls, as `Event`s in a ghost log, and counting over
  the log.
- `PhaseMachine`: the phase state machine on values (`Pool` = phases + log),
  the `slot % num_slot` addressing, and the finalize-once invariant.
- `SlotPool`: the slot record (`DecoderSlot`), and the exact call sequences
  of open and close.
- `NvjpegStatus`: the status-to-message table.
- `ColorNvjpeg`: the decoder as a class. `slot` is an array of slot records
  and every device buffer is an `array<bv8>`. `Request`, `FinalizeSlot`,
  `Fetch` and `GetGlTexture` are each proved to follow the phase machine
  (`State() == PhaseMachine.X(old(State()), …)`). `Open` and `Close` are
  proved to make exactly the calls `SlotPool` lists for them.

Module `Scenarios` shows call sequences a host makes: close twice, fetch
twice, two slots in flight, open then close.

What a foreign call returns is passed in as a parameter. That covers the
status codes of nvjpegCreate and nvjpegJpegStateCreate, the texture names,
and the bytes phase three writes. The host's constants
`K4W2_DECODER_TYPE_MASK`, `K4W2_DECODER_COLOR` and
`K4W2_DECODER_ENABLE_OPENGL` are passed as `TypeBits`, because their values
come from headers that are not part of this model.

## Model

| member | source | states |
|---|---|---|
| PhaseMachine.SlotIndex | src/decoder_cuda/color_nvjpeg.c:125 | the addressed slot is inside the pool, and a slot number below `num_slot` addresses itself |
| PhaseMachine.SlotIndexWraps | src/decoder_cuda/color_nvjpeg.c:151 | `slot` and `slot + k*num_slot` address the same slot |
| PhaseMachine.AliasedSlotsAgree | src/decoder_cuda/color_nvjpeg.c:125 | request, fetch and get_gl_texture act identically on slot numbers that differ by a multiple of `num_slot` |
| PhaseMachine.RequestEffect | src/decoder_cuda/color_nvjpeg.c:127-142 | request drains the stream, then enqueues phase one, then phase two on the addressed slot; that slot ends at phase 2 and no other slot changes |
| PhaseMachine.FetchEffect | src/decoder_cuda/color_nvjpeg.c:153-159 | fetch runs phase three and a drain once exactly when the slot was not at phase 3; the slot ends at phase 3 and no other slot changes |
| PhaseMachine.FetchIdempotent | src/decoder_cuda/color_nvjpeg.c:153-159 | a second fetch without a request in between, after a fetch or a get_gl_texture, changes nothing |
| PhaseMachine.GetTextureTwice | src/decoder_cuda/color_nvjpeg.c:172-181 | a second get_gl_texture runs no phase three but maps the resource again |
| PhaseMachine.RequestThenFetch | src/decoder_cuda/color_nvjpeg.c:127-159 | request followed by fetch makes exactly the calls drain, phase one, phase two, phase three, drain |
| PhaseMachine.RunKeepsInv | src/decoder_cuda/color_nvjpeg.c:120-186 | over any sequence of requests, fetches and texture requests, no frame is finalized twice, and a slot whose frame was finalized last holds phase 3 |
| PhaseMachine.RequestKeepsInv | src/decoder_cuda/color_nvjpeg.c:142 | request keeps the finalize-once invariant |
| PhaseMachine.FinalizeKeepsInv | src/decoder_cuda/color_nvjpeg.c:153-159 | the finishing step keeps the finalize-once invariant |
| PhaseMachine.GetTextureKeepsInv | src/decoder_cuda/color_nvjpeg.c:172-181 | get_gl_texture keeps the finalize-once invariant |
| PhaseMachine.LastFinalizedAppend | src/decoder_cuda/color_nvjpeg.c:153 | after more calls, a slot counts as finalized last iff the new calls finalize it last, or they do not touch it and it counted before |
| SlotPool.FirstNonZero | src/decoder_cuda/color_nvjpeg.c:91-97 | the slot at which open's loop stops: all earlier state creations succeeded and this one failed |
| SlotPool.AllocEventsInOrder | src/decoder_cuda/color_nvjpeg.c:91-102 | open creates slot i's decode state and then its buffer, as the (2i)th and (2i+1)th allocation calls |
| SlotPool.OpenEventsCount | src/decoder_cuda/color_nvjpeg.c:80-113 | a successful open creates the handle and the slot array once, and for each slot one decode state and one buffer; it registers a texture once exactly when OpenGL was asked for |
| SlotPool.TeardownEventsCount | src/decoder_cuda/color_nvjpeg.c:205-217 | close unregisters every slot's resource once, frees a buffer once exactly when it is set, and destroys a decode state once exactly when it is set |
| SlotPool.CloseEventsCount | src/decoder_cuda/color_nvjpeg.c:199-224 | close of a set-up pool destroys the handle once, frees the slot array once, and releases each slot's state, buffer and resource once |
| SlotPool.OpenCloseEnqueueNoDecode | src/decoder_cuda/color_nvjpeg.c:76-117 | open and close run no phase three, and open creates a decode state for every slot |
| SlotPool.OpenCloseBalanced | src/decoder_cuda/color_nvjpeg.c:91-217 | the handle, the slot array and, per slot, the state and the buffer: open's allocations and close's releases are one to one; the resource is unregistered even when none was registered |
| SlotPool.SessionBalanced | src/decoder_cuda/color_nvjpeg.c:80-224 | over an open followed by a close, the handle, the slot array and each slot's state and buffer are created once and released once; slot i's resource is registered once exactly when OpenGL was asked for and unregistered once |
| NvjpegStatus.StatusMessage | src/decoder_cuda/color_nvjpeg.c:42-60 | every status gets a message from the table or "Unknown error" |
| NvjpegStatus.StatusMessageLookup | src/decoder_cuda/color_nvjpeg.c:56-59 | a status from 0 to 8 gets its own table entry; "Unknown error" comes exactly for statuses outside 0..8 |
| NvjpegStatus.StatusMessageInjective | src/decoder_cuda/color_nvjpeg.c:45-57 | different statuses from 0 to 8 get different messages |
| ColorNvjpeg.Decoder.constructor | src/decoder_cuda/color_nvjpeg.c:32-40 | the host's zeroed context: no slots, no handle, empty log |
| ColorNvjpeg.Decoder.Open | src/decoder_cuda/color_nvjpeg.c:70-117 | success iff the type is colour, nvjpegCreate succeeds and every state creation succeeds; a wrong type changes nothing; on failure the log ends at the failing call and the slots set up so far stay allocated; on success every slot is set up with its own buffer, no slot counts as finalized in the log (the slots' phases are still whatever malloc left, so phase three runs on a slot's first fetch unless malloc left its phase at 3), the log is exactly open's calls, and with OpenGL slot i holds texture i |
| ColorNvjpeg.Decoder.SetUpPool | src/decoder_cuda/color_nvjpeg.c:86-114 | open after nvjpegCreate: fails exactly at the first failed state creation; on success the decoder is ready, no slot counts as finalized, and the log is exactly open's calls |
| ColorNvjpeg.Decoder.CreateSlots | src/decoder_cuda/color_nvjpeg.c:89-102 | the slot array is allocated, then the slot loop stops at the first failed state creation, after setting up every earlier slot |
| ColorNvjpeg.Decoder.RegisterTextures | src/decoder_cuda/color_nvjpeg.c:104-113 | slot i gets texture i and a registered resource; nothing else in the slot changes |
| ColorNvjpeg.Decoder.Request | src/decoder_cuda/color_nvjpeg.c:120-145 | follows `PhaseMachine.Request`: only the addressed slot's phase changes, to 2; always succeeds; the invariant is kept |
| ColorNvjpeg.Decoder.FinalizeSlot | src/decoder_cuda/color_nvjpeg.c:153-159 | follows `PhaseMachine.Finalize`: the buffer receives phase three's frame exactly when the slot was not at phase 3, and keeps its bytes otherwise |
| ColorNvjpeg.Decoder.Fetch | src/decoder_cuda/color_nvjpeg.c:147-164 | follows `PhaseMachine.Fetch`; `dst` starts with the slot buffer's first `dst_length` bytes and the rest of `dst` is untouched; always succeeds |
| ColorNvjpeg.Decoder.GetGlTexture | src/decoder_cuda/color_nvjpeg.c:166-186 | follows `PhaseMachine.GetTexture` and returns the addressed slot's texture name; always succeeds |
| ColorNvjpeg.Decoder.ReleaseSlots | src/decoder_cuda/color_nvjpeg.c:203-219 | the slot loop of close makes exactly the teardown calls, then frees the array and clears it |
| ColorNvjpeg.ColorspaceOf | src/decoder_cuda/color_nvjpeg.c:188-192 | get_colorspace answers RGB, whatever the decoder's state; `Colorspace` has no other value |
| ColorNvjpeg.Close | src/decoder_cuda/color_nvjpeg.c:194-226 | accepts null; destroys the stream, then the slots if set, then the handle if set; clears both; always succeeds; the log stays finalize-once |
| ColorNvjpeg.CloseKeepsFinalizedOnce | src/decoder_cuda/color_nvjpeg.c:199-224 | close's calls keep the log finalize-once |
| ColorNvjpeg.FailedOpenKeepsFinalizedOnce | src/decoder_cuda/color_nvjpeg.c:91-97 | an open that stops at a failed state creation keeps the log finalize-once |
| Scenarios.CloseTwice | src/decoder_cuda/color_nvjpeg.c:199-224 | a second close only destroys the stream again |
| Scenarios.FetchTwice | src/decoder_cuda/color_nvjpeg.c:153-161 | two fetches with no request in between copy the same bytes; the second runs no phase three |
| Scenarios.RequestBoth | src/decoder_cuda/color_nvjpeg.c:125-142 | requests on slots 0 and 1 make exactly two drain/phase one/phase two runs, one per slot, and leave both slots at phase 2 with their buffers unchanged |
| Scenarios.FetchPending | src/decoder_cuda/color_nvjpeg.c:151-161 | a fetch of a slot not at phase 3 adds exactly phase three on that slot and a drain, the slot's buffer holds what phase three wrote, `dst` starts with it, and no other slot or buffer changes |
| Scenarios.TwoSlotsInFlight | src/decoder_cuda/color_nvjpeg.c:125-161 | with two slots, request 0, request 1, fetch 0, fetch 1 make exactly the calls of two requests followed by phase three on slot 0 and then on slot 1; each fetch's copy holds what its own slot's phase three wrote, and the second fetch leaves the first copy and slot 0's buffer alone |
| Scenarios.WrongTypeThenClose | src/decoder_cuda/color_nvjpeg.c:76-77 | open of a non-colour type fails without touching the zeroed context, and a close that follows only destroys the stream |
| Scenarios.OpenThenClose | src/decoder_cuda/color_nvjpeg.c:70-226 | when open succeeds, open followed by close creates and releases the handle, the slot array and each slot's state and buffer exactly once |

## Left out

- JPEG decoding itself is left out. The bytes phase three writes into a slot buffer are a parameter (`decoded`). Phases one and two are only recorded in the log; the header cast and `src`/`src_length` of request are not modelled.
- CUDA and OpenGL are recorded as log events. This covers the stream, device memory, texture generation, registration and mapping, and the status each call returns. `CUDA_CHECK_ERR` and all `VERBOSE` logging are left out, because they only log.
- nvjpegCreate and nvjpegJpegStateCreate statuses are parameters. Their values only choose the branch.
- Host constants `K4W2_DECODER_TYPE_MASK`, `K4W2_DECODER_COLOR` and `K4W2_DECODER_ENABLE_OPENGL` are parameters. Their values are defined outside this file.
- The plugin registration (`ops` and `REGISTER_MODULE`) is left out. It is host wiring.
- ColorNvjpeg.ColorspaceOf: its contract can only name `Rgb`, the one value of `Colorspace`, so it does not constrain the result beyond its type.
- Slot numbers are taken as `nat`. Negative slot numbers are not modelled; what they address depends on the type of `num_slot`, which `color_nvjpeg.c` does not show.
- ColorNvjpeg.Decoder.Open: requires `1 <= num_slot`, which the source asserts at line 89, and lengths of `stateRes`/`textures` equal to `num_slot`.
- ColorNvjpeg.Decoder.Fetch: requires `dst_length <= 1920*1080*3` and `dst_length <= |dst|`. The source has no bounds check, and an over-long copy is undefined behaviour in C. It also requires that `dst` is neither a slot buffer nor the slot array.
- ColorNvjpeg.Decoder.Request, ColorNvjpeg.Decoder.Fetch, ColorNvjpeg.Decoder.GetGlTexture: require a successfully opened decoder (`Ready()`). Their behaviour on a closed or half-opened decoder (a null or partly uninitialised slot array) is undefined in C and is not modelled.
- The slot array from `malloc` is uninitialised. The model keeps this: `new DecoderSlot[n]` has arbitrary records, so phases and unset fields are arbitrary. The finalize-once invariant is stated so that it does not depend on them.
- Defects of the source are kept as written and not corrected. A failed open does not release what it allocated (see Decoder.Open's failure postconditions).
- After an open that failed at slot k's state creation, close's slot loop (color_nvjpeg.c:205-216) also runs over slots k to num_slot-1, whose records are whatever malloc left: it frees and destroys uninitialised pointers. The model keeps this, since those records are arbitrary (`CloseEvents` is taken over all of them), but states no lemma about it.
- Scenarios.TwoSlotsInFlight: the link from the JPEG a request submits to the pixels a fetch copies out is not modelled. The bytes phase three writes are a parameter of each fetch (`decoded`), so the scenario shows that each fetch runs phase three on its own slot and copies what that phase three wrote, not which request's frame that is.
- Close unregisters every slot's graphics resource even when open registered none (color_nvjpeg.c:208). The model keeps this (SlotPool.OpenCloseBalanced).
- get_gl_texture maps the slot's resource on every call and nothing ever unmaps it (color_nvjpeg.c:181). The model keeps this (PhaseMachine.GetTextureTwice).
- ColorNvjpeg.Decoder.constructor: takes the context as zero-filled by the host (null slot array, null handle). `color_nvjpeg.c` does not allocate the context and does not show that it is zeroed, but close's null tests (lines 199-221) depend on it.
- Host memory and device memory are not told apart. A slot buffer from `cudaMalloc` is an `array<bv8>` that fetch copies from directly, so the `memcpy` of line 161 is a plain copy; on most CUDA platforms a host `memcpy` from device memory is not valid.
