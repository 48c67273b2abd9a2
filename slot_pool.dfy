/** The slot pool of the colour decoder: what one slot holds, and the foreign
    calls that open and close make for the whole pool, in the order they
    make them. */
module SlotPool {
  import opened Trace

  /** Every slot's device buffer holds one full-HD RGB frame. */
  const ImageBytes: nat := 1920 * 1080 * 3
  /** Row pitch of a slot's buffer, in bytes. */
  const RowPitch: nat := 1920 * 3

  /** One entry of the slot array (the C struct decoder_slot). The two
      nvJPEG and CUDA handles are opaque: `jpeg` says whether the decode
      state handle is set, `gres` whether a graphics resource was
      registered. */
  datatype DecoderSlot = DecoderSlot(
    textureId: bv32,     // texture_id
    phase: int,          // phase
    jpeg: bool,          // jpeg != 0
    image: array?<bv8>,  // image.channel[0], device memory
    pitch: int,          // image.pitch[0]
    gres: bool)          // gres was registered

  /** The per-slot allocation in open succeeded for this slot. */
  predicate Allocated(d: DecoderSlot) {
    d.jpeg && d.image != null && d.image.Length == ImageBytes && d.pitch == RowPitch
  }

  /** The phase of every slot, in pool order. */
  function PhasesOf(ss: seq<DecoderSlot>): (ps: seq<int>)
    ensures |ps| == |ss|
    ensures forall i :: 0 <= i < |ss| ==> ps[i] == ss[i].phase
  {
    seq(|ss|, i requires 0 <= i < |ss| => ss[i].phase)
  }

  /** Index of the first non-zero status in `rs` (|rs| when all are zero):
      the slot at which open's allocation loop stops. */
  function FirstNonZero(rs: seq<int>): (k: nat)
    ensures k <= |rs|
    ensures forall i :: 0 <= i < k ==> rs[i] == 0
    ensures k < |rs| ==> rs[k] != 0
  {
    if rs == [] then 0
    else if rs[0] != 0 then 0
    else 1 + FirstNonZero(rs[1..])
  }

  // ---------------------------------------------------------------------
  // Calls made by open

  /** The allocation loop over the first n slots: a decode state, then a
      device buffer, slot by slot. */
  function AllocEvents(n: nat): seq<Event> {
    if n == 0 then [] else AllocEvents(n - 1) + [StateCreate(n - 1), DeviceMalloc(n - 1)]
  }

  /** The texture loop over the first n slots: generate, then register. */
  function TextureEvents(n: nat): seq<Event> {
    if n == 0 then [] else TextureEvents(n - 1) + [GenTexture(n - 1), RegisterImage(n - 1)]
  }

  /** The calls open makes before its allocation loop: the handle, the
      stream and the slot array. */
  const OpenPrefix: seq<Event> := [HandleCreate, StreamCreate, SlotsAlloc]

  /** Everything a successful open of n slots calls, in order. */
  function OpenEvents(n: nat, openGL: bool): seq<Event> {
    OpenPrefix + AllocEvents(n) + (if openGL then TextureEvents(n) else [])
  }

  // ---------------------------------------------------------------------
  // Calls made by close

  /** Teardown of slot i: the resource is unregistered unconditionally, the
      buffer freed when set, the decode state destroyed when set. */
  function SlotTeardown(i: nat, d: DecoderSlot): seq<Event> {
    [UnregisterResource(i)]
    + (if d.image != null then [DeviceFree(i)] else [])
    + (if d.jpeg then [StateDestroy(i)] else [])
  }

  /** The teardown loop over the slots `ss`, in pool order. */
  function TeardownEvents(ss: seq<DecoderSlot>): seq<Event>
    decreases |ss|
  {
    if ss == [] then []
    else TeardownEvents(ss[..|ss| - 1]) + SlotTeardown(|ss| - 1, ss[|ss| - 1])
  }

  /** The teardown loop over one more slot appends that slot's teardown. */
  lemma TeardownEventsStep(ss: seq<DecoderSlot>, k: nat)
    requires k < |ss|
    ensures TeardownEvents(ss[..k + 1]) == TeardownEvents(ss[..k]) + SlotTeardown(k, ss[k])
  {
    assert ss[..k + 1][..k] == ss[..k];
  }

  /** Everything close calls on a non-null decoder: the stream is always
      destroyed, the slots only when the slot array is set, the handle only
      when it is set. */
  function CloseEvents(hasSlots: bool, ss: seq<DecoderSlot>, hasHandle: bool): seq<Event> {
    [StreamDestroy]
    + (if hasSlots then TeardownEvents(ss) + [SlotsFree] else [])
    + (if hasHandle then [HandleDestroy] else [])
  }

  // ---------------------------------------------------------------------
  // Lemmas

  /** open allocates the slots in order: slot i's state creation and buffer
      allocation are the (2i)th and (2i+1)th allocation calls. */
  lemma {:induction false} AllocEventsInOrder(n: nat, i: nat)
    requires i < n
    ensures |AllocEvents(n)| == 2 * n
    ensures AllocEvents(n)[2 * i] == StateCreate(i)
    ensures AllocEvents(n)[2 * i + 1] == DeviceMalloc(i)
    decreases n
  {
    if i < n - 1 {
      AllocEventsInOrder(n - 1, i);
    } else if n > 1 {
      AllocEventsInOrder(n - 1, 0);
    }
  }

  lemma CountSingleton(x: Event, e: Event)
    ensures Count([x], e) == if x == e then 1 else 0
  {
  }

  lemma CountPair(a: seq<Event>, x: Event, y: Event, e: Event)
    ensures Count(a + [x, y], e) == Count(a, e) + (if x == e then 1 else 0) + (if y == e then 1 else 0)
  {
    assert a + [x, y] == (a + [x]) + [y];
    CountSnoc(a + [x], y, e);
    CountSnoc(a, x, e);
  }

  /** Each slot below n gets exactly one decode state and one buffer. */
  lemma {:induction false} AllocEventsCount(n: nat, i: nat)
    ensures Count(AllocEvents(n), StateCreate(i)) == if i < n then 1 else 0
    ensures Count(AllocEvents(n), DeviceMalloc(i)) == if i < n then 1 else 0
    decreases n
  {
    if n > 0 {
      AllocEventsCount(n - 1, i);
      CountPair(AllocEvents(n - 1), StateCreate(n - 1), DeviceMalloc(n - 1), StateCreate(i));
      CountPair(AllocEvents(n - 1), StateCreate(n - 1), DeviceMalloc(n - 1), DeviceMalloc(i));
    }
  }

  /** Each slot below n gets exactly one texture and one registration. */
  lemma {:induction false} TextureEventsCount(n: nat, i: nat)
    ensures Count(TextureEvents(n), GenTexture(i)) == if i < n then 1 else 0
    ensures Count(TextureEvents(n), RegisterImage(i)) == if i < n then 1 else 0
    decreases n
  {
    if n > 0 {
      TextureEventsCount(n - 1, i);
      CountPair(TextureEvents(n - 1), GenTexture(n - 1), RegisterImage(n - 1), GenTexture(i));
      CountPair(TextureEvents(n - 1), GenTexture(n - 1), RegisterImage(n - 1), RegisterImage(i));
    }
  }

  lemma CountSnoc(a: seq<Event>, x: Event, e: Event)
    ensures Count(a + [x], e) == Count(a, e) + (if x == e then 1 else 0)
  {
  }

  /** The teardown of one slot releases each of its resources once. */
  lemma SlotTeardownCount(i: nat, d: DecoderSlot, e: Event)
    ensures Count(SlotTeardown(i, d), e) ==
      (if e == UnregisterResource(i) then 1 else 0)
      + (if d.image != null && e == DeviceFree(i) then 1 else 0)
      + (if d.jpeg && e == StateDestroy(i) then 1 else 0)
  {
    var u := [UnregisterResource(i)];
    CountSingleton(UnregisterResource(i), e);
    if d.image != null {
      CountSnoc(u, DeviceFree(i), e);
      if d.jpeg {
        CountSnoc(u + [DeviceFree(i)], StateDestroy(i), e);
      } else {
        assert SlotTeardown(i, d) == u + [DeviceFree(i)];
      }
    } else {
      if d.jpeg {
        CountSnoc(u, StateDestroy(i), e);
        assert SlotTeardown(i, d) == u + [StateDestroy(i)];
      } else {
        assert SlotTeardown(i, d) == u;
      }
    }
  }

  /** close releases each slot's resources at most once: one unregister per
      slot, one free per set buffer, one destroy per set decode state. */
  lemma {:induction false} TeardownEventsCount(ss: seq<DecoderSlot>, i: nat)
    ensures Count(TeardownEvents(ss), UnregisterResource(i)) == if i < |ss| then 1 else 0
    ensures Count(TeardownEvents(ss), DeviceFree(i)) == if i < |ss| && ss[i].image != null then 1 else 0
    ensures Count(TeardownEvents(ss), StateDestroy(i)) == if i < |ss| && ss[i].jpeg then 1 else 0
    decreases |ss|
  {
    if ss != [] {
      var n := |ss| - 1;
      var init := ss[..n];
      TeardownEventsCount(init, i);
      CountAppend(TeardownEvents(init), SlotTeardown(n, ss[n]), UnregisterResource(i));
      CountAppend(TeardownEvents(init), SlotTeardown(n, ss[n]), DeviceFree(i));
      CountAppend(TeardownEvents(init), SlotTeardown(n, ss[n]), StateDestroy(i));
      SlotTeardownCount(n, ss[n], UnregisterResource(i));
      SlotTeardownCount(n, ss[n], DeviceFree(i));
      SlotTeardownCount(n, ss[n], StateDestroy(i));
      if i < n {
        assert init[i] == ss[i];
      }
    }
  }

  /** The allocation loop only creates decode states and buffers. */
  lemma {:induction false} AllocEventsKinds(n: nat)
    ensures forall e :: e in AllocEvents(n) ==> e.StateCreate? || e.DeviceMalloc?
    decreases n
  {
    if n > 0 {
      AllocEventsKinds(n - 1);
    }
  }

  /** The texture loop only generates and registers textures. */
  lemma {:induction false} TextureEventsKinds(n: nat)
    ensures forall e :: e in TextureEvents(n) ==> e.GenTexture? || e.RegisterImage?
    decreases n
  {
    if n > 0 {
      TextureEventsKinds(n - 1);
    }
  }

  /** The teardown loop only unregisters resources and frees slot state. */
  lemma {:induction false} TeardownEventsKinds(ss: seq<DecoderSlot>)
    ensures forall e :: e in TeardownEvents(ss) ==> e.UnregisterResource? || e.DeviceFree? || e.StateDestroy?
    decreases |ss|
  {
    if ss != [] {
      TeardownEventsKinds(ss[..|ss| - 1]);
    }
  }

  /** open and close enqueue no decode work; open creates a new decode state
      for every slot of the pool. */
  lemma OpenCloseEnqueueNoDecode(n: nat, openGL: bool, hasSlots: bool, ss: seq<DecoderSlot>, hasHandle: bool)
    ensures NoPhaseThree(OpenEvents(n, openGL))
    ensures NoPhaseThree(CloseEvents(hasSlots, ss, hasHandle))
    ensures forall s :: 0 <= s < n ==> StateCreate(s) in OpenEvents(n, openGL)
  {
    AllocEventsKinds(n);
    TextureEventsKinds(n);
    TeardownEventsKinds(ss);
    forall s | 0 <= s < n
      ensures StateCreate(s) in OpenEvents(n, openGL)
    {
      AllocEventsInOrder(n, s);
      assert OpenEvents(n, openGL)[3 + 2 * s] == AllocEvents(n)[2 * s];
    }
  }

  /** The calls before open's allocation loop are one each of the handle,
      the stream and the slot array. */
  lemma OpenPrefixCount(e: Event)
    ensures Count(OpenPrefix, e) == (if e == HandleCreate then 1 else 0)
      + (if e == StreamCreate then 1 else 0) + (if e == SlotsAlloc then 1 else 0)
  {
    assert OpenPrefix == [HandleCreate] + [StreamCreate] + [SlotsAlloc];
    CountSnoc([HandleCreate] + [StreamCreate], SlotsAlloc, e);
    CountSnoc([HandleCreate], StreamCreate, e);
    CountSingleton(HandleCreate, e);
  }

  lemma OpenEventsSplit(n: nat, openGL: bool, e: Event)
    ensures Count(OpenEvents(n, openGL), e)
      == Count(OpenPrefix, e) + Count(AllocEvents(n), e) + Count(if openGL then TextureEvents(n) else [], e)
  {
    var textures := if openGL then TextureEvents(n) else [];
    CountAppend(OpenPrefix + AllocEvents(n), textures, e);
    CountAppend(OpenPrefix, AllocEvents(n), e);
  }

  /** A successful open of n slots calls, for slot i, each allocation once,
      and registers a texture once exactly when OpenGL was requested. */
  lemma OpenEventsCount(n: nat, openGL: bool, i: nat)
    requires i < n
    ensures Count(OpenEvents(n, openGL), HandleCreate) == 1
    ensures Count(OpenEvents(n, openGL), SlotsAlloc) == 1
    ensures Count(OpenEvents(n, openGL), StateCreate(i)) == 1
    ensures Count(OpenEvents(n, openGL), DeviceMalloc(i)) == 1
    ensures Count(OpenEvents(n, openGL), RegisterImage(i)) == if openGL then 1 else 0
  {
    AllocEventsCount(n, i);
    TextureEventsCount(n, i);
    AllocEventsKinds(n);
    TextureEventsKinds(n);
    CountZero(AllocEvents(n), HandleCreate);
    CountZero(AllocEvents(n), SlotsAlloc);
    CountZero(AllocEvents(n), RegisterImage(i));
    CountZero(TextureEvents(n), HandleCreate);
    CountZero(TextureEvents(n), SlotsAlloc);
    CountZero(TextureEvents(n), StateCreate(i));
    CountZero(TextureEvents(n), DeviceMalloc(i));
    OpenPrefixCount(HandleCreate);
    OpenPrefixCount(SlotsAlloc);
    OpenPrefixCount(StateCreate(i));
    OpenPrefixCount(DeviceMalloc(i));
    OpenPrefixCount(RegisterImage(i));
    OpenEventsSplit(n, openGL, HandleCreate);
    OpenEventsSplit(n, openGL, SlotsAlloc);
    OpenEventsSplit(n, openGL, StateCreate(i));
    OpenEventsSplit(n, openGL, DeviceMalloc(i));
    OpenEventsSplit(n, openGL, RegisterImage(i));
  }

  lemma CloseEventsSplit(ss: seq<DecoderSlot>, e: Event)
    ensures Count(CloseEvents(true, ss, true), e)
      == (if e == StreamDestroy then 1 else 0) + Count(TeardownEvents(ss), e)
         + (if e == SlotsFree then 1 else 0) + (if e == HandleDestroy then 1 else 0)
  {
    var mid := TeardownEvents(ss) + [SlotsFree];
    assert CloseEvents(true, ss, true) == [StreamDestroy] + mid + [HandleDestroy];
    CountSnoc([StreamDestroy] + mid, HandleDestroy, e);
    CountAppend([StreamDestroy], mid, e);
    CountSnoc(TeardownEvents(ss), SlotsFree, e);
    CountSingleton(StreamDestroy, e);
  }

  /** close on opened slots calls each release once per slot, and
      unregisters a resource for every slot. */
  lemma CloseEventsCount(ss: seq<DecoderSlot>, i: nat)
    requires i < |ss| && Allocated(ss[i])
    ensures Count(CloseEvents(true, ss, true), HandleDestroy) == 1
    ensures Count(CloseEvents(true, ss, true), SlotsFree) == 1
    ensures Count(CloseEvents(true, ss, true), StateDestroy(i)) == 1
    ensures Count(CloseEvents(true, ss, true), DeviceFree(i)) == 1
    ensures Count(CloseEvents(true, ss, true), UnregisterResource(i)) == 1
  {
    TeardownEventsCount(ss, i);
    TeardownEventsKinds(ss);
    CountZero(TeardownEvents(ss), HandleDestroy);
    CountZero(TeardownEvents(ss), SlotsFree);
    CloseEventsSplit(ss, HandleDestroy);
    CloseEventsSplit(ss, SlotsFree);
    CloseEventsSplit(ss, StateDestroy(i));
    CloseEventsSplit(ss, DeviceFree(i));
    CloseEventsSplit(ss, UnregisterResource(i));
  }

  /** Opening n slots and closing them again balances every allocation of
      slot i with exactly one release. The resource unregistration happens
      once per slot whether or not open registered one. */
  lemma OpenCloseBalanced(n: nat, openGL: bool, ss: seq<DecoderSlot>, i: nat)
    requires |ss| == n && i < n
    requires forall j :: 0 <= j < n ==> Allocated(ss[j])
    ensures var up := OpenEvents(n, openGL); var down := CloseEvents(true, ss, true);
      Count(up, HandleCreate) == Count(down, HandleDestroy) == 1 &&
      Count(up, SlotsAlloc) == Count(down, SlotsFree) == 1 &&
      Count(up, StateCreate(i)) == Count(down, StateDestroy(i)) == 1 &&
      Count(up, DeviceMalloc(i)) == Count(down, DeviceFree(i)) == 1 &&
      Count(up, RegisterImage(i)) == (if openGL then 1 else 0) &&
      Count(down, UnregisterResource(i)) == 1
  {
    OpenEventsCount(n, openGL, i);
    CloseEventsCount(ss, i);
  }

  /** open only creates, allocates and registers. */
  predicate OpenKind(e: Event) {
    e.HandleCreate? || e.StreamCreate? || e.SlotsAlloc? || e.StateCreate? ||
    e.DeviceMalloc? || e.GenTexture? || e.RegisterImage?
  }

  /** close only destroys, frees and unregisters. */
  predicate CloseKind(e: Event) {
    e.StreamDestroy? || e.UnregisterResource? || e.DeviceFree? || e.StateDestroy? ||
    e.SlotsFree? || e.HandleDestroy?
  }

  lemma OpenEventsKinds(n: nat, openGL: bool)
    ensures forall e :: e in OpenEvents(n, openGL) ==> OpenKind(e)
  {
    AllocEventsKinds(n);
    TextureEventsKinds(n);
  }

  lemma CloseEventsKinds(hasSlots: bool, ss: seq<DecoderSlot>, hasHandle: bool)
    ensures forall e :: e in CloseEvents(hasSlots, ss, hasHandle) ==> CloseKind(e)
  {
    TeardownEventsKinds(ss);
  }

  /** Over a session, an event close never makes is counted by open alone. */
  lemma SessionCountOpen(n: nat, openGL: bool, ss: seq<DecoderSlot>, e: Event)
    requires !CloseKind(e)
    ensures Count(OpenEvents(n, openGL) + CloseEvents(true, ss, true), e) == Count(OpenEvents(n, openGL), e)
  {
    CloseEventsKinds(true, ss, true);
    CountZero(CloseEvents(true, ss, true), e);
    CountAppend(OpenEvents(n, openGL), CloseEvents(true, ss, true), e);
  }

  /** Over a session, an event open never makes is counted by close alone. */
  lemma SessionCountClose(n: nat, openGL: bool, ss: seq<DecoderSlot>, e: Event)
    requires !OpenKind(e)
    ensures Count(OpenEvents(n, openGL) + CloseEvents(true, ss, true), e) == Count(CloseEvents(true, ss, true), e)
  {
    OpenEventsKinds(n, openGL);
    CountZero(OpenEvents(n, openGL), e);
    CountAppend(OpenEvents(n, openGL), CloseEvents(true, ss, true), e);
  }

  /** A whole session, open followed by close, pairs every allocation with
      its release: the handle, the slot array, and slot i's decode state and
      buffer, are created once and released once. Slot i's graphics resource
      is unregistered once even when open registered none. */
  lemma SessionBalanced(n: nat, openGL: bool, ss: seq<DecoderSlot>, i: nat)
    requires |ss| == n && i < n
    requires forall j :: 0 <= j < n ==> Allocated(ss[j])
    ensures var log := OpenEvents(n, openGL) + CloseEvents(true, ss, true);
      Count(log, HandleCreate) == 1 && Count(log, HandleDestroy) == 1 &&
      Count(log, SlotsAlloc) == 1 && Count(log, SlotsFree) == 1 &&
      Count(log, StateCreate(i)) == 1 && Count(log, StateDestroy(i)) == 1 &&
      Count(log, DeviceMalloc(i)) == 1 && Count(log, DeviceFree(i)) == 1 &&
      Count(log, RegisterImage(i)) == (if openGL then 1 else 0) &&
      Count(log, UnregisterResource(i)) == 1
  {
    OpenCloseBalanced(n, openGL, ss, i);
    SessionCountOpen(n, openGL, ss, HandleCreate);
    SessionCountOpen(n, openGL, ss, SlotsAlloc);
    SessionCountOpen(n, openGL, ss, StateCreate(i));
    SessionCountOpen(n, openGL, ss, DeviceMalloc(i));
    SessionCountOpen(n, openGL, ss, RegisterImage(i));
    SessionCountClose(n, openGL, ss, HandleDestroy);
    SessionCountClose(n, openGL, ss, SlotsFree);
    SessionCountClose(n, openGL, ss, StateDestroy(i));
    SessionCountClose(n, openGL, ss, DeviceFree(i));
    SessionCountClose(n, openGL, ss, UnregisterResource(i));
  }
}
