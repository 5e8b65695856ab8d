/** GSM time (transceiver/gsmutil.h): a count of timeslots that only ever grows on the
    transmitter side, compared modulo the hyperframe of 26 * 51 * 2048 frames
    (section 4.3.3 of GSM 05.02).

    `Diff` is the one primitive behind every comparison. It is not an order on all times:
    it is the signed distance modulo the hyperframe, so two times half a hyperframe apart are
    each before the other, and "after" is not transitive. It agrees with the order of the
    integers exactly for times less than half a hyperframe apart. */
module GsmTime {
  import opened Arithmetic

  const HYPERFRAME_FRAMES := 26 * 51 * 2048
  const HYPERFRAME_SLOTS := HYPERFRAME_FRAMES * 8
  const HALF := HYPERFRAME_SLOTS / 2
  const SLOTS_PER_SECOND := 217 * 8

  /** The 64-bit slot counter. */
  type Slots = nat

  /** assign(fn,tn): computed in 32 bits before it is widened. */
  function FromFrame(fn: nat, tn: nat): Slots {
    (fn * 8 + tn) % 0x1_0000_0000
  }

  function Timeslot(t: Slots): nat {
    t % HYPERFRAME_SLOTS
  }

  function Fn(t: Slots): nat {
    (t / 8) % HYPERFRAME_FRAMES
  }

  function Tn(t: Slots): nat {
    t % 8
  }

  function Diff(a: Slots, b: Slots): (d: int)
    ensures -HALF <= d < HALF
  {
    var t := (HYPERFRAME_SLOTS + Timeslot(a) - Timeslot(b)) % HYPERFRAME_SLOTS;
    if t < HALF then t else t - HYPERFRAME_SLOTS
  }

  predicate After(a: Slots, b: Slots) { Diff(a, b) > 0 }
  predicate Before(a: Slots, b: Slots) { Diff(a, b) < 0 }
  predicate AtOrBefore(a: Slots, b: Slots) { Diff(a, b) <= 0 }
  predicate AtOrAfter(a: Slots, b: Slots) { Diff(a, b) >= 0 }
  predicate SameSlot(a: Slots, b: Slots) { Diff(a, b) == 0 }

  /** Diff differs from the plain difference by whole hyperframes. */
  lemma DiffIsCongruent(a: Slots, b: Slots) returns (k: int)
    ensures a - b == Diff(a, b) + k * HYPERFRAME_SLOTS
  {
    var qa, qb := a / HYPERFRAME_SLOTS, b / HYPERFRAME_SLOTS;
    var s := Timeslot(a) - Timeslot(b);
    k := qa - qb + (if s < -HALF then -1 else if s >= HALF then 1 else 0);
  }

  /** ... and it is the only number of the half-open half-hyperframe range that does. */
  lemma DiffUnique(a: Slots, b: Slots, d: int, k: int)
    requires -HALF <= d < HALF
    requires a - b == d + k * HYPERFRAME_SLOTS
    ensures Diff(a, b) == d
  {
    var k' := DiffIsCongruent(a, b);
    assert Diff(a, b) - d == (k - k') * HYPERFRAME_SLOTS;
  }

  /** Inside a window shorter than half a hyperframe the cyclic distance is the plain one. */
  lemma DiffInWindow(a: Slots, b: Slots)
    requires -HALF <= a - b < HALF
    ensures Diff(a, b) == a - b
  {
    DiffUnique(a, b, a - b, 0);
  }

  /** Distances to a common reference subtract, as long as the result fits the window.
      This is what makes cyclic comparison a total order on a window. */
  lemma DiffSubtracts(a: Slots, b: Slots, r: Slots)
    requires -HALF <= Diff(a, r) - Diff(b, r) < HALF
    ensures Diff(a, b) == Diff(a, r) - Diff(b, r)
  {
    var ka := DiffIsCongruent(a, r);
    var kb := DiffIsCongruent(b, r);
    DiffUnique(a, b, Diff(a, r) - Diff(b, r), ka - kb);
  }

  /** Only the slot number inside the hyperframe matters. */
  lemma SameSlotIffCongruent(a: Slots, b: Slots)
    ensures SameSlot(a, b) <==> Timeslot(a) == Timeslot(b)
  {
  }

  /** Exactly when both `<` and its mirror hold: half a hyperframe apart. Otherwise the three
      relations are exclusive and exhaustive. */
  lemma BothBeforeIffHalfApart(a: Slots, b: Slots)
    ensures Before(a, b) && Before(b, a) <==> Diff(a, b) == -HALF
    ensures Diff(a, b) != -HALF ==> Diff(b, a) == -Diff(a, b)
  {
    var k := DiffIsCongruent(a, b);
    if Diff(a, b) == -HALF {
      DiffUnique(b, a, -HALF, -k + 1);
    } else {
      DiffUnique(b, a, -Diff(a, b), -k);
    }
  }

  /** Cyclic "after" is not transitive: three times a third of a hyperframe apart. */
  lemma AfterIsNotTransitive()
    ensures var third := HYPERFRAME_SLOTS / 3;
            After(third, 0) && After(2 * third, third) && !After(2 * third, 0)
  {
    var third := HYPERFRAME_SLOTS / 3;
    DiffUnique(third, 0, third, 0);
    DiffUnique(2 * third, third, third, 0);
    DiffUnique(2 * third, 0, 2 * third - HYPERFRAME_SLOTS, 1);
    hide Diff;
  }

  /** The filler modulus divides the hyperframe, so the filler row of a slot and of the same
      slot one multiframe later agree, also across the hyperframe wrap. */
  lemma FillerRowPeriodic(t: Slots, modulus: nat)
    requires modulus in {26, 51, 102}
    ensures Fn(t + modulus * 8) % modulus == Fn(t) % modulus
    ensures Tn(t + modulus * 8) == Tn(t)
  {
    var f := t / 8;
    RemainderUnique(t + modulus * 8, 8, f + modulus, t % 8);
    FrameModulo(f, modulus);
    FrameModulo(f + modulus, modulus);
    RemainderUnique(f + modulus, modulus, f / modulus + 1, f % modulus);
  }

  lemma FrameModulo(f: nat, modulus: nat)
    requires modulus in {26, 51, 102}
    ensures f % HYPERFRAME_FRAMES % modulus == f % modulus
  {
    var c := HYPERFRAME_FRAMES / modulus;
    assert c * modulus == HYPERFRAME_FRAMES;
    var q, r := f / HYPERFRAME_FRAMES, f % HYPERFRAME_FRAMES;
    var q', r' := r / modulus, r % modulus;
    assert f == (q * c + q') * modulus + r' by {
      assert q * HYPERFRAME_FRAMES == q * c * modulus;
    }
    RemainderUnique(f, modulus, q * c + q', r');
  }

  /** A time assigned from a frame and a timeslot number gives both back, the frame number cut to
      29 bits and to the hyperframe; a timeslot number above 7 counts on into the next frames. */
  lemma AssignedFrame(fn: nat, tn: nat)
    ensures Tn(FromFrame(fn, tn)) == tn % 8
    ensures Fn(FromFrame(fn, tn)) == (fn + tn / 8) % 0x2000_0000 % HYPERFRAME_FRAMES
    ensures fn < HYPERFRAME_FRAMES && tn < 8 ==> Fn(FromFrame(fn, tn)) == fn && Tn(FromFrame(fn, tn)) == tn
  {
    var f, n := fn + tn / 8, tn % 8;
    var q, r := f / 0x2000_0000, f % 0x2000_0000;
    assert fn * 8 + tn == f * 8 + n;
    RemainderUnique(f * 8 + n, 0x1_0000_0000, q, r * 8 + n);
    RemainderUnique(r * 8 + n, 8, r, n);
  }
}
