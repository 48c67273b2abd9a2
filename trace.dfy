/** The foreign calls the colour decoder makes into nvJPEG, CUDA and OpenGL,
    recorded as events in a log instead of being executed. */
module Trace {

  /** One call into a library outside this model. `slot` is the pool index the
      call works on. */
  datatype Event =
    | HandleCreate                  // nvjpegCreate
    | StreamCreate                  // cudaStreamCreateWithFlags
    | SlotsAlloc                    // malloc of the slot array
    | StateCreate(slot: nat)        // nvjpegJpegStateCreate for a slot
    | DeviceMalloc(slot: nat)       // cudaMalloc of a slot's pixel buffer
    | GenTexture(slot: nat)         // glGenTextures for a slot
    | RegisterImage(slot: nat)      // cudaGraphicsGLRegisterImage for a slot
    | Sync                          // cudaStreamSynchronize
    | PhaseOne(slot: nat)           // nvjpegDecodePhaseOne
    | PhaseTwo(slot: nat)           // nvjpegDecodePhaseTwo
    | PhaseThree(slot: nat)         // nvjpegDecodePhaseThree
    | MapResource(slot: nat)        // cudaGraphicsMapResources
    | StreamDestroy                 // cudaStreamDestroy
    | UnregisterResource(slot: nat) // cudaGraphicsUnregisterResource
    | DeviceFree(slot: nat)         // cudaFree of a slot's pixel buffer
    | StateDestroy(slot: nat)       // nvjpegJpegStateDestroy
    | SlotsFree                     // free of the slot array
    | HandleDestroy                 // nvjpegDestroy

  /** Number of occurrences of `e` in `log`. */
  function Count(log: seq<Event>, e: Event): (c: nat)
    ensures c <= |log|
    decreases |log|
  {
    if log == [] then 0
    else Count(log[..|log| - 1], e) + (if log[|log| - 1] == e then 1 else 0)
  }

  /** `e` occurs in `log` exactly when it is counted at least once. */
  lemma {:induction false} CountZero(log: seq<Event>, e: Event)
    ensures Count(log, e) == 0 <==> e !in log
    decreases |log|
  {
    if log != [] {
      var init := log[..|log| - 1];
      CountZero(init, e);
      assert log == init + [log[|log| - 1]];
    }
  }

  lemma {:induction false} CountAppend(a: seq<Event>, b: seq<Event>, e: Event)
    ensures Count(a + b, e) == Count(a, e) + Count(b, e)
    decreases |b|
  {
    if b == [] {
      assert a + b == a;
    } else {
      assert (a + b)[..|a + b| - 1] == a + b[..|b| - 1];
      CountAppend(a, b[..|b| - 1], e);
    }
  }

  /** No event of the log enqueues a phase three. */
  predicate NoPhaseThree(log: seq<Event>) {
    forall e :: e in log ==> !e.PhaseThree?
  }
}
