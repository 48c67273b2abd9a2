/** The per-slot phase state machine of the colour decoder, on values: the
    phase integer of every slot and the log of foreign calls. The decoder
    class in module ColorNvjpeg is proved to follow these functions. */
module PhaseMachine {
  import opened Trace

  /** Phase value stored after phases one and two have been enqueued. */
  const Transformed: int := 2
  /** Phase value stored after phase three has run and the stream drained. */
  const Finalized: int := 3

  /** The part of the decoder the phase machine sees: one phase per slot
      (the pool size is |phases|) and the log of foreign calls. */
  datatype Pool = Pool(phases: seq<int>, log: seq<Event>)

  /** Every operation selects its slot as `slot % num_slot`. */
  function SlotIndex(slot: nat, numSlot: nat): (s: nat)
    requires 1 <= numSlot
    ensures s < numSlot
    ensures slot < numSlot ==> s == slot
  {
    slot % numSlot
  }

  /** color_nvjpeg_request: drain the stream, enqueue phases one and two for
      the addressed slot, store phase 2. */
  function Request(p: Pool, slot: nat): Pool
    requires 1 <= |p.phases|
  {
    var s := SlotIndex(slot, |p.phases|);
    Pool(p.phases[s := Transformed], p.log + [Sync, PhaseOne(s), PhaseTwo(s)])
  }

  /** The "finalize once" step shared by fetch and get_gl_texture: phase three
      and a drain only when the slot is not finalized yet. */
  function Finalize(p: Pool, s: nat): Pool
    requires s < |p.phases|
  {
    if p.phases[s] != Finalized then
      Pool(p.phases[s := Finalized], p.log + [PhaseThree(s), Sync])
    else p
  }

  /** color_nvjpeg_fetch, without the byte copy. */
  function Fetch(p: Pool, slot: nat): Pool
    requires 1 <= |p.phases|
  {
    Finalize(p, SlotIndex(slot, |p.phases|))
  }

  /** color_nvjpeg_get_gl_texture: finalize, then map the slot's resource. */
  function GetTexture(p: Pool, slot: nat): Pool
    requires 1 <= |p.phases|
  {
    var s := SlotIndex(slot, |p.phases|);
    var q := Finalize(p, s);
    Pool(q.phases, q.log + [MapResource(s)])
  }

  /** An operation a caller can issue on an opened decoder. */
  datatype Op = RequestOp(slot: nat) | FetchOp(slot: nat) | TextureOp(slot: nat)

  function Step(p: Pool, op: Op): (q: Pool)
    requires 1 <= |p.phases|
    ensures |q.phases| == |p.phases|
  {
    match op
    case RequestOp(slot) => Request(p, slot)
    case FetchOp(slot) => Fetch(p, slot)
    case TextureOp(slot) => GetTexture(p, slot)
  }

  /** The pool after issuing `ops` in order. */
  function Run(p: Pool, ops: seq<Op>): (q: Pool)
    requires 1 <= |p.phases|
    ensures |q.phases| == |p.phases|
    decreases |ops|
  {
    if ops == [] then p else Run(Step(p, ops[0]), ops[1..])
  }

  // ---------------------------------------------------------------------
  // Finalize-once, stated on the log

  /** Event `e` starts a new frame for slot `s`'s decode state: either phase
      two of a new request, or a freshly created decode state. */
  predicate Resets(e: Event, s: nat) {
    e == PhaseTwo(s) || e == StateCreate(s)
  }

  /** Events i and j of the log are phase three on the same slot, i first. */
  predicate PhaseThreeAgain(log: seq<Event>, i: int, j: int) {
    0 <= i < j < |log| && log[i].PhaseThree? && log[j] == log[i]
  }

  /** No decode state is finalized twice for the same frame: between any two
      phase-three calls on a slot there is a new request or a new state. */
  ghost predicate FinalizedOnce(log: seq<Event>) {
    forall i, j {:trigger PhaseThreeAgain(log, i, j)} :: PhaseThreeAgain(log, i, j) ==>
      exists k :: i < k < j && Resets(log[k], log[i].slot)
  }

  /** The most recent event about slot `s`'s decode state is a phase three. */
  predicate LastFinalized(log: seq<Event>, s: nat)
    decreases |log|
  {
    if log == [] then false
    else if log[|log| - 1] == PhaseThree(s) then true
    else if Resets(log[|log| - 1], s) then false
    else LastFinalized(log[..|log| - 1], s)
  }

  /** Some event of `b` is a phase three or a reset for slot `s`. */
  ghost predicate Touches(b: seq<Event>, s: nat) {
    exists e :: e in b && (e == PhaseThree(s) || Resets(e, s))
  }

  /** The invariant the pool keeps: the log never finalized a frame twice, and
      a slot whose frame was finalized last still holds phase 3, so the next
      fetch will not run phase three again. */
  ghost predicate Inv(p: Pool) {
    FinalizedOnce(p.log) &&
    forall s :: 0 <= s < |p.phases| && LastFinalized(p.log, s) ==> p.phases[s] == Finalized
  }

  // ---------------------------------------------------------------------
  // Addressing

  lemma {:induction false} MulAtLeast(d: int, n: int)
    requires 1 <= d && 1 <= n
    ensures d * n >= n
    decreases d
  {
    if d > 1 {
      MulAtLeast(d - 1, n);
      assert d * n == (d - 1) * n + n;
    }
  }

  /** Euclidean division has one remainder: x == q * n + r with 0 <= r < n
      fixes x % n. */
  lemma ModUnique(x: int, n: int, q: int, r: int)
    requires 1 <= n && 0 <= r < n && x == q * n + r
    ensures x % n == r
  {
    var q', r' := x / n, x % n;
    assert x == q' * n + r';
    var d := q - q';
    assert d * n == r' - r;
    if d >= 1 {
      MulAtLeast(d, n);
    } else if d <= -1 {
      MulAtLeast(-d, n);
    }
  }

  /** `slot` and `slot + k * num_slot` address the same slot. */
  lemma SlotIndexWraps(slot: nat, k: nat, numSlot: nat)
    requires 1 <= numSlot
    ensures SlotIndex(slot + k * numSlot, numSlot) == SlotIndex(slot, numSlot)
  {
    var q, r := slot / numSlot, slot % numSlot;
    assert slot + k * numSlot == (q + k) * numSlot + r;
    ModUnique(slot + k * numSlot, numSlot, q + k, r);
  }

  /** Slot numbers that differ by a multiple of the pool size address the same
      entry, for every operation. */
  lemma AliasedSlotsAgree(p: Pool, slot: nat, k: nat)
    requires 1 <= |p.phases|
    ensures Request(p, slot + k * |p.phases|) == Request(p, slot)
    ensures Fetch(p, slot + k * |p.phases|) == Fetch(p, slot)
    ensures GetTexture(p, slot + k * |p.phases|) == GetTexture(p, slot)
  {
    SlotIndexWraps(slot, k, |p.phases|);
  }

  // ---------------------------------------------------------------------
  // Effects of single operations

  /** request drains the stream, then enqueues phase one and then phase two
      for slot s; slot s ends in phase 2 and no other slot changes. */
  lemma RequestEffect(p: Pool, slot: nat, t: nat)
    requires 1 <= |p.phases| && t < |p.phases|
    ensures var q := Request(p, slot); var s := SlotIndex(slot, |p.phases|);
      |q.phases| == |p.phases| &&
      q.phases[t] == (if t == s then Transformed else p.phases[t]) &&
      q.log[..|p.log|] == p.log &&
      q.log[|p.log|..] == [Sync, PhaseOne(s), PhaseTwo(s)]
  {
  }

  /** fetch enqueues phase three (and drains) exactly when the slot was not
      finalized, and always leaves it finalized; no other slot changes. */
  lemma FetchEffect(p: Pool, slot: nat, t: nat)
    requires 1 <= |p.phases| && t < |p.phases|
    ensures var q := Fetch(p, slot); var s := SlotIndex(slot, |p.phases|);
      |q.phases| == |p.phases| &&
      q.phases[t] == (if t == s then Finalized else p.phases[t]) &&
      Count(q.log, PhaseThree(s)) == Count(p.log, PhaseThree(s)) + (if p.phases[s] != Finalized then 1 else 0) &&
      Count(q.log, Sync) == Count(p.log, Sync) + (if p.phases[s] != Finalized then 1 else 0)
  {
    var s := SlotIndex(slot, |p.phases|);
    CountAppend(p.log, [PhaseThree(s), Sync], PhaseThree(s));
    CountAppend(p.log, [PhaseThree(s), Sync], Sync);
    assert Count([PhaseThree(s), Sync], PhaseThree(s)) == 1 by {
      assert [PhaseThree(s), Sync][..1] == [PhaseThree(s)];
    }
    assert Count([PhaseThree(s), Sync], Sync) == 1 by {
      assert [PhaseThree(s), Sync][..1] == [PhaseThree(s)];
    }
  }

  /** A second fetch with no request in between does nothing more. */
  lemma FetchIdempotent(p: Pool, slot: nat)
    requires 1 <= |p.phases|
    ensures Fetch(Fetch(p, slot), slot) == Fetch(p, slot)
    ensures Fetch(GetTexture(p, slot), slot) == GetTexture(p, slot)
  {
  }

  /** A second get_gl_texture runs no further phase three, but maps the
      slot's resource again. */
  lemma GetTextureTwice(p: Pool, slot: nat)
    requires 1 <= |p.phases|
    ensures var q := GetTexture(p, slot); var s := SlotIndex(slot, |p.phases|);
      GetTexture(q, slot) == Pool(q.phases, q.log + [MapResource(s)]) &&
      q.phases[s] == Finalized
  {
  }

  /** A request followed by a fetch of the same slot produces, in order, the
      drain, both submit phases, phase three and the final drain. */
  lemma RequestThenFetch(p: Pool, slot: nat)
    requires 1 <= |p.phases|
    ensures var s := SlotIndex(slot, |p.phases|); var q := Fetch(Request(p, slot), slot);
      q.log == p.log + [Sync, PhaseOne(s), PhaseTwo(s), PhaseThree(s), Sync] &&
      q.phases == p.phases[s := Finalized]
  {
  }

  // ---------------------------------------------------------------------
  // The finalize-once invariant

  lemma {:induction false} NoPhaseThreeNotFinalized(b: seq<Event>, s: nat)
    requires NoPhaseThree(b)
    ensures !LastFinalized(b, s)
    decreases |b|
  {
    if b != [] {
      assert b[|b| - 1] in b;
      var b' := b[..|b| - 1];
      assert forall e :: e in b' ==> e in b;
      NoPhaseThreeNotFinalized(b', s);
    }
  }

  /** Appending `b` to a log: slot `s` is finalized last iff `b` finalizes it
      last, or `b` does not touch it and it was finalized last before. */
  lemma {:induction false} LastFinalizedAppend(a: seq<Event>, b: seq<Event>, s: nat)
    ensures LastFinalized(a + b, s) == (LastFinalized(b, s) || (!Touches(b, s) && LastFinalized(a, s)))
    decreases |b|
  {
    if b == [] {
      assert a + b == a;
    } else {
      var b' := b[..|b| - 1];
      var e := b[|b| - 1];
      assert e in b;
      assert (a + b)[..|a + b| - 1] == a + b';
      assert (a + b)[|a + b| - 1] == e;
      if e != PhaseThree(s) && !Resets(e, s) {
        LastFinalizedAppend(a, b', s);
        assert b == b' + [e];
        assert Touches(b, s) == Touches(b', s) by {
          if Touches(b, s) {
            var x :| x in b && (x == PhaseThree(s) || Resets(x, s));
            assert x in b';
          }
          if Touches(b', s) {
            var x :| x in b' && (x == PhaseThree(s) || Resets(x, s));
            assert x in b;
          }
        }
      }
    }
  }

  /** If slot `s` is not finalized last, every earlier phase three on it is
      followed by a reset. */
  lemma {:induction false} NotLastFinalizedHasReset(log: seq<Event>, s: nat, i: nat)
    requires !LastFinalized(log, s)
    requires i < |log| && log[i] == PhaseThree(s)
    ensures exists k :: i < k < |log| && Resets(log[k], s)
    decreases |log|
  {
    var n := |log| - 1;
    if !Resets(log[n], s) {
      var prefix := log[..n];
      assert i < n;
      NotLastFinalizedHasReset(prefix, s, i);
      var k :| i < k < |prefix| && Resets(prefix[k], s);
      assert log[k] == prefix[k];
    }
  }

  /** Appending events with no phase three keeps the log finalize-once. */
  lemma FinalizedOnceAppend(a: seq<Event>, b: seq<Event>)
    requires FinalizedOnce(a) && NoPhaseThree(b)
    ensures FinalizedOnce(a + b)
  {
    var log := a + b;
    forall i, j | PhaseThreeAgain(log, i, j)
      ensures exists k :: i < k < j && Resets(log[k], log[i].slot)
    {
      assert PhaseThreeAgain(a, i, j);
      var k :| i < k < j && Resets(a[k], a[i].slot);
      assert log[k] == a[k];
    }
  }

  lemma RequestKeepsInv(p: Pool, slot: nat)
    requires 1 <= |p.phases| && Inv(p)
    ensures Inv(Request(p, slot))
  {
    var s := SlotIndex(slot, |p.phases|);
    var b := [Sync, PhaseOne(s), PhaseTwo(s)];
    var q := Request(p, slot);
    FinalizedOnceAppend(p.log, b);
    NoPhaseThreeNotFinalized(b, s);
    forall t | 0 <= t < |q.phases| && LastFinalized(q.log, t)
      ensures q.phases[t] == Finalized
    {
      LastFinalizedAppend(p.log, b, t);
      NoPhaseThreeNotFinalized(b, t);
    }
  }

  lemma FinalizeKeepsInv(p: Pool, s: nat)
    requires s < |p.phases| && Inv(p)
    ensures Inv(Finalize(p, s))
  {
    if p.phases[s] != Finalized {
      var b := [PhaseThree(s), Sync];
      var log := p.log + b;
      var q := Finalize(p, s);
      assert !LastFinalized(p.log, s);
      forall i, j | PhaseThreeAgain(log, i, j)
        ensures exists k :: i < k < j && Resets(log[k], log[i].slot)
      {
        if j < |p.log| {
          assert PhaseThreeAgain(p.log, i, j);
          var k :| i < k < j && Resets(p.log[k], p.log[i].slot);
          assert log[k] == p.log[k];
        } else {
          assert j == |p.log|;
          assert log[i] == p.log[i] == PhaseThree(s);
          NotLastFinalizedHasReset(p.log, s, i);
          var k :| i < k < |p.log| && Resets(p.log[k], s);
          assert log[k] == p.log[k];
        }
      }
      forall t | 0 <= t < |q.phases| && LastFinalized(q.log, t)
        ensures q.phases[t] == Finalized
      {
        LastFinalizedAppend(p.log, b, t);
        if t != s {
          assert b[..|b| - 1] == [PhaseThree(s)];
          assert [PhaseThree(s)][..0] == [];
          assert !LastFinalized([PhaseThree(s)], t);
          assert !LastFinalized(b, t);
        }
      }
    }
  }

  lemma GetTextureKeepsInv(p: Pool, slot: nat)
    requires 1 <= |p.phases| && Inv(p)
    ensures Inv(GetTexture(p, slot))
  {
    var s := SlotIndex(slot, |p.phases|);
    var q := Finalize(p, s);
    FinalizeKeepsInv(p, s);
    var b := [MapResource(s)];
    FinalizedOnceAppend(q.log, b);
    forall t | 0 <= t < |q.phases| && LastFinalized(q.log + b, t)
      ensures q.phases[t] == Finalized
    {
      LastFinalizedAppend(q.log, b, t);
      NoPhaseThreeNotFinalized(b, t);
    }
  }

  /** Whatever sequence of requests, fetches and texture requests a caller
      issues, the pool keeps the invariant; in particular no frame of any
      slot is ever finalized twice. */
  lemma {:induction false} RunKeepsInv(p: Pool, ops: seq<Op>)
    requires 1 <= |p.phases| && Inv(p)
    ensures Inv(Run(p, ops))
    ensures FinalizedOnce(Run(p, ops).log)
    decreases |ops|
  {
    if ops != [] {
      var q := Step(p, ops[0]);
      match ops[0] {
        case RequestOp(slot) => RequestKeepsInv(p, slot);
        case FetchOp(slot) => FinalizeKeepsInv(p, SlotIndex(slot, |p.phases|));
        case TextureOp(slot) => GetTextureKeepsInv(p, slot);
      }
      RunKeepsInv(q, ops[1..]);
    }
  }
}
