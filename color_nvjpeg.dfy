/** The nvJPEG colour decoder plugin: a pool of decode slots over one nvJPEG
    handle and one CUDA stream. Requests enqueue phases one and two of a
    JPEG decode on a slot; fetch and get_gl_texture finish the decode with
    phase three at most once per request or per open, then copy the pixels
    out or hand out the slot's OpenGL texture. Calls into nvJPEG, CUDA and OpenGL are
    recorded in the ghost `trace`; what they return is passed in. */
module ColorNvjpeg {
  import opened Trace
  import opened SlotPool
  import PhaseMachine

  /** K4W2_SUCCESS and K4W2_ERROR. */
  datatype Status = Success | Error

  /** The only colour space this decoder produces. */
  datatype Colorspace = Rgb

  /** The bits of the host's decoder type word that open inspects. Their
      values are fixed by the host library's headers. */
  datatype TypeBits = TypeBits(typeMask: bv32, color: bv32, enableOpenGL: bv32)

  /** The caller asked for a colour decoder. */
  predicate IsColorRequest(typ: bv32, bits: TypeBits) {
    typ & bits.typeMask == bits.color
  }

  /** The caller asked for OpenGL textures. */
  predicate WantsOpenGL(typ: bv32, bits: TypeBits) {
    typ & bits.enableOpenGL != 0
  }

  /** color_nvjpeg_get_colorspace: the answer does not depend on the
      decoder's state. */
  function ColorspaceOf(): (c: Colorspace)
    ensures c == Rgb
  {
    Rgb
  }

  /** The decoder instance (the C struct decoder_nvjpeg). */
  class Decoder {
    /** ctx->num_slot, chosen by the host. */
    const numSlot: nat
    /** d->handle is non-null. */
    var handle: bool
    /** d->slot: null until open allocates it and again after close. */
    var slot: array?<DecoderSlot>
    /** Every foreign call made on this decoder, in order. */
    ghost var trace: seq<Event>

    /** Holds in every state the decoder can be in, including after a
        failed open and after close. */
    ghost predicate Valid()
      reads this
    {
      (slot != null ==> slot.Length == numSlot) &&
      PhaseMachine.FinalizedOnce(trace)
    }

    /** The phases and the log, as the phase machine sees them. */
    ghost function State(): PhaseMachine.Pool
      reads this, slot
      requires slot != null
    {
      PhaseMachine.Pool(PhasesOf(slot[..]), trace)
    }

    /** The slot records, empty when there is no slot array. */
    ghost function Records(): seq<DecoderSlot>
      reads this, slot
    {
      if slot == null then [] else slot[..]
    }

    /** The device buffers of all slots. */
    ghost function DeviceBuffers(): set<array?<bv8>>
      reads this, slot
      requires slot != null
    {
      set i | 0 <= i < slot.Length :: slot[i].image
    }

    /** Every slot has its decode state and a buffer of its own. */
    ghost predicate SlotsSetUp()
      reads this, slot
    {
      slot != null && slot.Length == numSlot &&
      (forall i :: 0 <= i < slot.Length ==> Allocated(slot[i])) &&
      (forall i, j :: 0 <= i < j < slot.Length ==> slot[i].image != slot[j].image) &&
      (forall i :: 0 <= i < slot.Length ==> slot[i].image as object? != slot)
    }

    /** The decoder after a successful open: the slots are set up and the
        phase machine's invariant holds. */
    ghost predicate Ready()
      reads this, slot
    {
      Valid() && 1 <= numSlot && handle && SlotsSetUp() &&
      PhaseMachine.Inv(State())
    }

    /** The host's zero-initialised context with `numSlot` slots (null slot
        array, null handle), which close's null tests rely on. */
    constructor (numSlot: nat)
      ensures this.numSlot == numSlot && Valid()
      ensures slot == null && !handle && trace == []
    {
      this.numSlot := numSlot;
      handle := false;
      slot := null;
      trace := [];
    }

    /** color_nvjpeg_open. `createRes` and `stateRes` are the statuses that
        nvjpegCreate and each nvjpegJpegStateCreate return; `textures` are
        the names glGenTextures hands out. */
    method Open(typ: bv32, bits: TypeBits, createRes: int, stateRes: seq<int>, textures: seq<bv32>)
      returns (status: Status)
      requires Valid() && 1 <= numSlot
      requires |stateRes| == numSlot && |textures| == numSlot
      modifies this
      ensures Valid()
      ensures status == Success <==>
        IsColorRequest(typ, bits) && createRes == 0 && FirstNonZero(stateRes) == numSlot
      ensures !IsColorRequest(typ, bits) ==> unchanged(this)
      ensures IsColorRequest(typ, bits) && createRes != 0 ==>
        slot == old(slot) && handle == old(handle) && trace == old(trace) + [HandleCreate]
      ensures IsColorRequest(typ, bits) && createRes == 0 ==>
        handle && slot != null && fresh(slot) &&
        forall i :: 0 <= i < FirstNonZero(stateRes) ==> Allocated(slot[i]) && fresh(slot[i].image)
      ensures IsColorRequest(typ, bits) && createRes == 0 && status == Error ==>
        var k := FirstNonZero(stateRes);
        trace == old(trace) + OpenPrefix + AllocEvents(k) + [StateCreate(k)]
      ensures status == Success ==>
        Ready() && trace == old(trace) + OpenEvents(numSlot, WantsOpenGL(typ, bits)) &&
        (forall s :: 0 <= s < numSlot ==> !PhaseMachine.LastFinalized(trace, s)) &&
        forall i :: 0 <= i < numSlot && WantsOpenGL(typ, bits) ==>
          slot[i].textureId == textures[i] && slot[i].gres
    {
      if !IsColorRequest(typ, bits) {
        return Error;
      }
      trace := trace + [HandleCreate];
      if createRes != 0 {
        PhaseMachine.FinalizedOnceAppend(old(trace), [HandleCreate]);
        return Error;
      }
      handle := true;
      var ok := SetUpPool(old(trace), stateRes, textures, WantsOpenGL(typ, bits));
      status := if ok then Success else Error;
    }

    /** open after nvjpegCreate succeeded: create the stream, the slots and,
        when asked for, the textures. `before` is the log before open. */
    method SetUpPool(ghost before: seq<Event>, stateRes: seq<int>, textures: seq<bv32>, openGL: bool)
      returns (ok: bool)
      requires PhaseMachine.FinalizedOnce(before) && trace == before + [HandleCreate]
      requires 1 <= numSlot && handle
      requires |stateRes| == numSlot && |textures| == numSlot
      modifies this
      ensures Valid() && handle && slot != null && fresh(slot)
      ensures ok <==> FirstNonZero(stateRes) == numSlot
      ensures forall i :: 0 <= i < FirstNonZero(stateRes) ==> Allocated(slot[i]) && fresh(slot[i].image)
      ensures !ok ==>
        var k := FirstNonZero(stateRes);
        trace == before + OpenPrefix + AllocEvents(k) + [StateCreate(k)]
      ensures ok ==>
        Ready() && trace == before + OpenEvents(numSlot, openGL) &&
        (forall s :: 0 <= s < numSlot ==> !PhaseMachine.LastFinalized(trace, s)) &&
        forall i :: 0 <= i < numSlot && openGL ==> slot[i].textureId == textures[i] && slot[i].gres
    {
      trace := trace + [StreamCreate];
      ghost var created := trace;
      ok := CreateSlots(stateRes);
      if !ok {
        ghost var k := FirstNonZero(stateRes);
        assert created + [SlotsAlloc] == before + OpenPrefix;
        assert trace == before + OpenPrefix + AllocEvents(k) + [StateCreate(k)];
        FailedOpenKeepsFinalizedOnce(before, k);
        return;
      }
      if openGL {
        RegisterTextures(textures);
      }
      assert trace == before + OpenEvents(numSlot, openGL);
      OpenEstablishesReady(before, openGL);
    }

    /** The slot loop of open: malloc the slot array, then give each slot its
        decode state and its device buffer, stopping at the first
        nvjpegJpegStateCreate that fails. */
    method CreateSlots(stateRes: seq<int>) returns (ok: bool)
      requires |stateRes| == numSlot
      modifies this
      ensures handle == old(handle)
      ensures slot != null && fresh(slot) && slot.Length == numSlot
      ensures ok <==> FirstNonZero(stateRes) == numSlot
      ensures var k := FirstNonZero(stateRes);
        trace == old(trace) + [SlotsAlloc] + AllocEvents(k) + (if ok then [] else [StateCreate(k)])
      ensures forall i :: 0 <= i < FirstNonZero(stateRes) ==> Allocated(slot[i]) && fresh(slot[i].image)
      ensures ok ==> SlotsSetUp()
    {
      // The slot array comes from malloc: its records, phases included, are
      // arbitrary until the loop below fills them in.
      slot := new DecoderSlot[numSlot];
      trace := trace + [SlotsAlloc];
      ghost var prefix := trace;
      var s := 0;
      while s < numSlot
        invariant 0 <= s <= numSlot
        invariant slot != null && fresh(slot) && slot.Length == numSlot && handle == old(handle)
        invariant forall i :: 0 <= i < s ==> Allocated(slot[i]) && fresh(slot[i].image)
        invariant forall i :: 0 <= i < s ==> slot[i].image as object? != slot
        invariant forall i, j :: 0 <= i < j < s ==> slot[i].image != slot[j].image
        invariant forall i :: 0 <= i < s ==> stateRes[i] == 0
        invariant trace == prefix + AllocEvents(s)
      {
        trace := trace + [StateCreate(s)];
        if stateRes[s] != 0 {
          assert FirstNonZero(stateRes) == s;
          return false;
        }
        var image := new bv8[ImageBytes];
        slot[s] := slot[s].(jpeg := true, image := image, pitch := RowPitch);
        trace := trace + [DeviceMalloc(s)];
        assert trace == prefix + AllocEvents(s + 1);
        s := s + 1;
      }
      assert FirstNonZero(stateRes) == numSlot;
      return true;
    }

    /** The OpenGL loop of open: give each slot a texture name and register
        it with CUDA. */
    method RegisterTextures(textures: seq<bv32>)
      requires SlotsSetUp() && |textures| == numSlot
      modifies this`trace, slot
      ensures SlotsSetUp()
      ensures trace == old(trace) + TextureEvents(numSlot)
      ensures forall i :: 0 <= i < numSlot ==>
        slot[i] == old(slot[i]).(textureId := textures[i], gres := true)
    {
      var t := 0;
      while t < numSlot
        invariant 0 <= t <= numSlot
        invariant forall i :: 0 <= i < numSlot ==>
          slot[i] == if i < t then old(slot[i]).(textureId := textures[i], gres := true) else old(slot[i])
        invariant trace == old(trace) + TextureEvents(t)
      {
        slot[t] := slot[t].(textureId := textures[t], gres := true);
        trace := trace + [GenTexture(t), RegisterImage(t)];
        t := t + 1;
      }
      assert forall i :: 0 <= i < numSlot ==> slot[i].image == old(slot[i].image) && Allocated(slot[i]);
    }

    /** After open appends its calls to `before`, the log is still
        finalize-once and no slot counts as finalized, so a decoder whose
        slots are all set up is ready. */
    lemma OpenEstablishesReady(before: seq<Event>, openGL: bool)
      requires SlotsSetUp() && 1 <= numSlot && handle
      requires PhaseMachine.FinalizedOnce(before)
      requires trace == before + OpenEvents(numSlot, openGL)
      ensures Ready()
      ensures forall s :: 0 <= s < numSlot ==> !PhaseMachine.LastFinalized(trace, s)
    {
      var b := OpenEvents(numSlot, openGL);
      OpenCloseEnqueueNoDecode(numSlot, openGL, false, [], false);
      PhaseMachine.FinalizedOnceAppend(before, b);
      forall s | 0 <= s < numSlot
        ensures !PhaseMachine.LastFinalized(trace, s)
      {
        PhaseMachine.LastFinalizedAppend(before, b, s);
        PhaseMachine.NoPhaseThreeNotFinalized(b, s);
        assert StateCreate(s) in b;
        assert PhaseMachine.Touches(b, s);
      }
    }

    /** color_nvjpeg_request. `phaseOneRes` and `phaseTwoRes` are what the
        two submit phases return; they are only logged. */
    method Request(slotNo: nat, phaseOneRes: int, phaseTwoRes: int) returns (status: Status)
      requires Ready()
      modifies this`trace, slot
      ensures Ready()
      ensures State() == PhaseMachine.Request(old(State()), slotNo)
      ensures var s := PhaseMachine.SlotIndex(slotNo, numSlot);
        slot[s] == old(slot[s]).(phase := PhaseMachine.Transformed) &&
        forall i :: 0 <= i < numSlot && i != s ==> slot[i] == old(slot[i])
      ensures status == Success
    {
      var s := slotNo % numSlot;
      trace := trace + [Sync];
      trace := trace + [PhaseOne(s)];
      trace := trace + [PhaseTwo(s)];
      slot[s] := slot[s].(phase := 2);
      assert trace == old(trace) + [Sync, PhaseOne(s), PhaseTwo(s)];
      assert PhasesOf(slot[..]) == old(PhasesOf(slot[..]))[s := 2];
      PhaseMachine.RequestKeepsInv(old(State()), slotNo);
      status := Success;
    }

    /** The finalize-once step of fetch and get_gl_texture: when slot `s` is
        not at phase 3, phase three writes the decoded frame into its buffer,
        the stream is drained and the phase becomes 3. `decoded` is what
        phase three writes. */
    method FinalizeSlot(s: nat, decoded: seq<bv8>)
      requires Ready() && s < numSlot && |decoded| == ImageBytes
      modifies this`trace, slot, slot[s].image
      ensures Ready()
      ensures State() == PhaseMachine.Finalize(old(State()), s)
      ensures slot[s] == old(slot[s]).(phase := PhaseMachine.Finalized)
      ensures forall i :: 0 <= i < numSlot && i != s ==> slot[i] == old(slot[i])
      ensures slot[s].image[..] ==
        if old(slot[s].phase) != PhaseMachine.Finalized then decoded else old(slot[s].image[..])
    {
      if slot[s].phase != 3 {
        trace := trace + [PhaseThree(s)];
        var image := slot[s].image;
        forall i | 0 <= i < ImageBytes {
          image[i] := decoded[i];
        }
        trace := trace + [Sync];
        slot[s] := slot[s].(phase := 3);
        assert trace == old(trace) + [PhaseThree(s), Sync];
        assert PhasesOf(slot[..]) == old(PhasesOf(slot[..]))[s := 3];
      }
      PhaseMachine.FinalizeKeepsInv(old(State()), s);
    }

    /** color_nvjpeg_fetch: finalize the addressed slot once, then copy the
        first `dstLength` bytes of its buffer into `dst`. */
    method Fetch(slotNo: nat, dst: array<bv8>, dstLength: nat, decoded: seq<bv8>) returns (status: Status)
      requires Ready()
      requires dstLength <= ImageBytes && dstLength <= dst.Length
      requires dst !in DeviceBuffers() && dst as object != slot
      requires |decoded| == ImageBytes
      modifies this`trace, slot, slot[PhaseMachine.SlotIndex(slotNo, numSlot)].image, dst
      ensures Ready()
      ensures State() == PhaseMachine.Fetch(old(State()), slotNo)
      ensures var s := PhaseMachine.SlotIndex(slotNo, numSlot);
        slot[s] == old(slot[s]).(phase := PhaseMachine.Finalized) &&
        (forall i :: 0 <= i < numSlot && i != s ==> slot[i] == old(slot[i])) &&
        slot[s].image[..] ==
          (if old(slot[s].phase) != PhaseMachine.Finalized then decoded else old(slot[s].image[..])) &&
        dst[..dstLength] == slot[s].image[..dstLength] &&
        dst[dstLength..] == old(dst[dstLength..])
      ensures status == Success
    {
      var s := slotNo % numSlot;
      FinalizeSlot(s, decoded);
      var image := slot[s].image;
      forall i | 0 <= i < dstLength {
        dst[i] := image[i];
      }
      status := Success;
    }

    /** color_nvjpeg_get_gl_texture: finalize the addressed slot once, map its
        graphics resource on the stream and return its texture name. */
    method GetGlTexture(slotNo: nat, options: bv32, decoded: seq<bv8>) returns (status: Status, textureName: bv32)
      requires Ready() && |decoded| == ImageBytes
      modifies this`trace, slot, slot[PhaseMachine.SlotIndex(slotNo, numSlot)].image
      ensures Ready()
      ensures State() == PhaseMachine.GetTexture(old(State()), slotNo)
      ensures var s := PhaseMachine.SlotIndex(slotNo, numSlot);
        slot[s] == old(slot[s]).(phase := PhaseMachine.Finalized) &&
        (forall i :: 0 <= i < numSlot && i != s ==> slot[i] == old(slot[i])) &&
        slot[s].image[..] ==
          (if old(slot[s].phase) != PhaseMachine.Finalized then decoded else old(slot[s].image[..])) &&
        textureName == slot[s].textureId
      ensures status == Success
    {
      var s := slotNo % numSlot;
      FinalizeSlot(s, decoded);
      trace := trace + [MapResource(s)];
      PhaseMachine.GetTextureKeepsInv(old(State()), slotNo);
      textureName := slot[s].textureId;
      status := Success;
    }

    /** The slot half of close: for each slot, unregister its graphics
        resource, free its buffer when set and destroy its decode state when
        set (clearing it), then free the slot array. */
    method ReleaseSlots()
      requires slot != null && slot.Length == numSlot
      modifies this, slot
      ensures slot == null && handle == old(handle)
      ensures trace == old(trace) + TeardownEvents(old(slot[..])) + [SlotsFree]
    {
      var slots := slot;
      ghost var records := slots[..];
      var s := 0;
      while s < numSlot
        invariant 0 <= s <= numSlot == slots.Length
        invariant slot == slots && handle == old(handle)
        invariant forall i :: s <= i < numSlot ==> slots[i] == records[i]
        invariant trace == old(trace) + TeardownEvents(records[..s])
      {
        var entry := slots[s];
        ghost var calls := [UnregisterResource(s)];
        if entry.image != null {
          calls := calls + [DeviceFree(s)];
        }
        if entry.jpeg {
          calls := calls + [StateDestroy(s)];
          slots[s] := entry.(jpeg := false);
        }
        assert calls == SlotTeardown(s, records[s]);
        TeardownEventsStep(records, s);
        trace := trace + calls;
        s := s + 1;
      }
      assert records[..s] == records;
      trace := trace + [SlotsFree];
      slot := null;
    }
  }

  /** color_nvjpeg_close. Accepts a null decoder; destroys the stream, then
      each slot's resources and the slot array when there is one, then the
      handle when there is one, and clears both so that a later close skips
      them. */
  method Close(d: Decoder?) returns (status: Status)
    requires d != null ==> d.Valid()
    modifies d, if d != null then d.slot else null
    ensures d != null ==> d.Valid() && d.slot == null && !d.handle
    ensures d != null ==>
      d.trace == old(d.trace) + CloseEvents(old(d.slot) != null, old(d.Records()), old(d.handle))
    ensures status == Success
  {
    if d == null {
      return Success;
    }
    ghost var slotCalls := if d.slot != null then TeardownEvents(d.Records()) + [SlotsFree] else [];
    ghost var handleCalls := if d.handle then [HandleDestroy] else [];
    d.trace := d.trace + [StreamDestroy];
    if d.slot != null {
      d.ReleaseSlots();
    }
    assert d.trace == old(d.trace) + [StreamDestroy] + slotCalls;
    if d.handle {
      d.trace := d.trace + [HandleDestroy];
      d.handle := false;
    }
    assert d.trace == old(d.trace) + CloseEvents(old(d.slot) != null, old(d.Records()), old(d.handle));
    CloseKeepsFinalizedOnce(old(d.trace), old(d.slot) != null, old(d.Records()), old(d.handle));
    assert d.Valid();
    status := Success;
  }

  /** A close appends no phase three, so the log stays finalize-once. */
  lemma CloseKeepsFinalizedOnce(before: seq<Event>, hasSlots: bool, ss: seq<DecoderSlot>, hasHandle: bool)
    requires PhaseMachine.FinalizedOnce(before)
    ensures PhaseMachine.FinalizedOnce(before + CloseEvents(hasSlots, ss, hasHandle))
  {
    OpenCloseEnqueueNoDecode(0, false, hasSlots, ss, hasHandle);
    PhaseMachine.FinalizedOnceAppend(before, CloseEvents(hasSlots, ss, hasHandle));
  }

  /** An open that stops at slot k's state creation appends no phase three,
      so the log stays finalize-once. */
  lemma FailedOpenKeepsFinalizedOnce(before: seq<Event>, k: nat)
    requires PhaseMachine.FinalizedOnce(before)
    ensures PhaseMachine.FinalizedOnce(before + OpenPrefix + AllocEvents(k) + [StateCreate(k)])
  {
    AllocEventsKinds(k);
    var calls := OpenPrefix + AllocEvents(k) + [StateCreate(k)];
    assert before + OpenPrefix + AllocEvents(k) + [StateCreate(k)] == before + calls;
    assert NoPhaseThree(calls);
    PhaseMachine.FinalizedOnceAppend(before, calls);
  }
}
