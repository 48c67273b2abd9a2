/** How a host drives the colour decoder through its operation table:
    call sequences a host makes, each with what it guarantees. */
module Scenarios {
  import opened Trace
  import opened SlotPool
  import opened ColorNvjpeg
  import PhaseMachine

  /** A second close finds the slot array and the handle cleared and only
      destroys the stream again. */
  method CloseTwice(d: Decoder)
    requires d.Valid()
    modifies d, d.slot
    ensures d.Valid() && d.slot == null && !d.handle
    ensures d.trace ==
      old(d.trace) + CloseEvents(old(d.slot) != null, old(d.Records()), old(d.handle)) + [StreamDestroy]
  {
    var first := Close(d);
    var second := Close(d);
    assert CloseEvents(false, [], false) == [StreamDestroy];
  }

  /** Two fetches of one slot with no request in between copy the same
      bytes: the second fetch does not run phase three again, so whatever
      phase three would produce the second time (`again`) is never
      written. */
  method FetchTwice(d: Decoder, slotNo: nat, a: array<bv8>, b: array<bv8>, len: nat,
                    decoded: seq<bv8>, again: seq<bv8>)
    requires d.Ready()
    requires len <= ImageBytes && len <= a.Length && len <= b.Length
    requires a !in d.DeviceBuffers() && b !in d.DeviceBuffers() && a != b
    requires a as object != d.slot && b as object != d.slot
    requires |decoded| == ImageBytes && |again| == ImageBytes
    modifies d`trace, d.slot, d.slot[PhaseMachine.SlotIndex(slotNo, d.numSlot)].image, a, b
    ensures d.Ready()
    ensures a[..len] == b[..len]
    ensures d.State() == PhaseMachine.Fetch(old(d.State()), slotNo)
  {
    var s := PhaseMachine.SlotIndex(slotNo, d.numSlot);
    var first := d.Fetch(slotNo, a, len, decoded);
    assert d.DeviceBuffers() == old(d.DeviceBuffers()) by {
      assert forall i :: 0 <= i < d.numSlot ==> d.slot[i].image == old(d.slot[i].image);
    }
    ghost var copied := a[..len];
    var second := d.Fetch(slotNo, b, len, again);
    assert a[..len] == copied;
    PhaseMachine.FetchIdempotent(old(d.State()), slotNo);
  }

  /** A fetch of a slot whose phase is not 3 (a slot requested since its
      last fetch) runs phase three on that slot and drains the stream, and
      copies out exactly what phase three wrote; the other slots and every
      buffer but its own stay as they were. */
  method FetchPending(d: Decoder, s: nat, dst: array<bv8>, len: nat, frame: seq<bv8>)
    requires d.Ready() && s < d.numSlot && d.slot[s].phase != PhaseMachine.Finalized
    requires len <= ImageBytes && len <= dst.Length
    requires dst !in d.DeviceBuffers() && dst as object != d.slot
    requires |frame| == ImageBytes
    modifies d`trace, d.slot, d.slot[s].image, dst
    ensures d.Ready()
    ensures d.trace == old(d.trace) + [PhaseThree(s), Sync]
    ensures d.slot[s] == old(d.slot[s]).(phase := PhaseMachine.Finalized)
    ensures forall i :: 0 <= i < d.numSlot && i != s ==> d.slot[i] == old(d.slot[i])
    ensures d.slot[s].image[..] == frame && dst[..len] == frame[..len]
    ensures d.DeviceBuffers() == old(d.DeviceBuffers())
  {
    assert old(d.State()).phases[s] != PhaseMachine.Finalized;
    var status := d.Fetch(s, dst, len, frame);
    assert forall i :: 0 <= i < d.numSlot ==> d.slot[i].image == old(d.slot[i].image);
  }

  /** Requests on slot 0 and then slot 1 of a two-slot pool: the second
      request leaves the first slot at phase 2, so both are pending. */
  method RequestBoth(d: Decoder)
    requires d.Ready() && d.numSlot == 2
    modifies d`trace, d.slot
    ensures d.Ready()
    ensures d.trace == old(d.trace) + [Sync, PhaseOne(0), PhaseTwo(0), Sync, PhaseOne(1), PhaseTwo(1)]
    ensures forall i :: 0 <= i < 2 ==> d.slot[i] == old(d.slot[i]).(phase := PhaseMachine.Transformed)
    ensures d.DeviceBuffers() == old(d.DeviceBuffers())
  {
    var r0 := d.Request(0, 0, 0);
    assert d.trace == old(d.trace) + [Sync, PhaseOne(0), PhaseTwo(0)];
    var r1 := d.Request(1, 0, 0);
    assert forall i :: 0 <= i < d.numSlot ==> d.slot[i].image == old(d.slot[i].image);
  }

  /** Two slots in flight: after requesting slot 0 and then slot 1, slot 0
      is still at phase 2, so fetching it runs phase three on slot 0 and
      copies out what that phase three wrote (`frameA`); fetching slot 1
      then runs phase three on slot 1 (writing `frameB`) and leaves `a` and
      slot 0's buffer alone. */
  method TwoSlotsInFlight(d: Decoder, a: array<bv8>, b: array<bv8>, len: nat,
                          frameA: seq<bv8>, frameB: seq<bv8>)
    requires d.Ready() && d.numSlot == 2
    requires len <= ImageBytes && len <= a.Length && len <= b.Length
    requires a !in d.DeviceBuffers() && b !in d.DeviceBuffers() && a != b
    requires a as object != d.slot && b as object != d.slot
    requires |frameA| == ImageBytes && |frameB| == ImageBytes
    modifies d`trace, d.slot, d.slot[0].image, d.slot[1].image, a, b
    ensures d.Ready()
    ensures d.trace == old(d.trace) + [Sync, PhaseOne(0), PhaseTwo(0), Sync, PhaseOne(1), PhaseTwo(1),
                                       PhaseThree(0), Sync, PhaseThree(1), Sync]
    ensures d.slot[0].image[..] == frameA && d.slot[1].image[..] == frameB
    ensures a[..len] == frameA[..len] && b[..len] == frameB[..len]
  {
    RequestBoth(d);
    FetchPending(d, 0, a, len, frameA);
    ghost var copied := a[..len];
    FetchPending(d, 1, b, len, frameB);
    assert a[..len] == copied;
  }

  /** open refuses a type that is not a colour decoder and touches nothing,
      so a close of the host's zeroed context only destroys the stream. */
  method WrongTypeThenClose(numSlot: nat, typ: bv32, bits: TypeBits, stateRes: seq<int>, textures: seq<bv32>)
    returns (status: Status, ghost log: seq<Event>)
    requires 1 <= numSlot && |stateRes| == numSlot && |textures| == numSlot
    requires !IsColorRequest(typ, bits)
    ensures status == Error
    ensures log == [StreamDestroy]
  {
    var d := new Decoder(numSlot);
    status := d.Open(typ, bits, 0, stateRes, textures);
    var closed := Close(d);
    log := d.trace;
  }

  /** A host that opens a fresh decoder and closes it again: when open
      succeeds, the session's calls pair the handle, the slot array and
      every slot's allocations with their releases. */
  method OpenThenClose(numSlot: nat, typ: bv32, bits: TypeBits, createRes: int,
                       stateRes: seq<int>, textures: seq<bv32>)
    returns (status: Status, ghost log: seq<Event>)
    requires 1 <= numSlot && |stateRes| == numSlot && |textures| == numSlot
    ensures status == Success <==>
      IsColorRequest(typ, bits) && createRes == 0 && FirstNonZero(stateRes) == numSlot
    ensures status == Success ==> forall i :: 0 <= i < numSlot ==>
      Count(log, StateCreate(i)) == 1 && Count(log, StateDestroy(i)) == 1 &&
      Count(log, DeviceMalloc(i)) == 1 && Count(log, DeviceFree(i)) == 1 &&
      Count(log, HandleCreate) == 1 && Count(log, HandleDestroy) == 1 &&
      Count(log, SlotsAlloc) == 1 && Count(log, SlotsFree) == 1
  {
    var d := new Decoder(numSlot);
    status := d.Open(typ, bits, createRes, stateRes, textures);
    ghost var records := d.Records();
    ghost var up := d.trace;
    ghost var hasSlots, hasHandle := d.slot != null, d.handle;
    var closed := Close(d);
    log := d.trace;
    assert log == up + CloseEvents(hasSlots, records, hasHandle);
    if status == Success {
      assert up == OpenEvents(numSlot, WantsOpenGL(typ, bits));
      assert hasSlots && hasHandle && |records| == numSlot;
      assert forall j :: 0 <= j < numSlot ==> Allocated(records[j]);
      forall i | 0 <= i < numSlot
        ensures Count(log, StateCreate(i)) == 1 && Count(log, StateDestroy(i)) == 1 &&
          Count(log, DeviceMalloc(i)) == 1 && Count(log, DeviceFree(i)) == 1 &&
          Count(log, HandleCreate) == 1 && Count(log, HandleDestroy) == 1 &&
          Count(log, SlotsAlloc) == 1 && Count(log, SlotsFree) == 1
      {
        SessionBalanced(numSlot, WantsOpenGL(typ, bits), records, i);
      }
    }
  }
}
