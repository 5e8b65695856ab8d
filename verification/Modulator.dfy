/** SignalProcessing: GMSK modulation of one burst (transceiver/sigproc.cpp). */
module Modulator {
  import opened Arithmetic
  import opened Signal

  /** ceil(156.25 * oversample). */
  function SlotLen(os: nat): nat {
    (625 * os + 3) / 4
  }

  function Iters(len: nat, step: nat): nat {
    if step < 2 then len else (len + step - 1) / step
  }

  /** v before power ramping: the symbols, one every `os` samples from sample 4 * os on. */
  function SymbolAt(os: nat, bits: seq<nat>, j: nat): real
    requires os > 0
  {
    if j >= 4 * os && (j - 4 * os) % os == 0 && (j - 4 * os) / os < |bits|
    then if bits[(j - 4 * os) / os] != 0 then 1.0 else -1.0
    else 0.0
  }

  /** v with the leading and trailing edge of the power ramp. */
  function RampedAt(os: nat, bits: seq<nat>, j: nat): real
    requires os > 0
  {
    if j == 152 * os then SymbolAt(os, bits, 151 * os) * 0.71
    else if j == 3 * os then SymbolAt(os, bits, 4 * os) * 0.5
    else SymbolAt(os, bits, j)
  }

  /** Multiplication by the q-th power of the imaginary unit. */
  function Rotate(v: real, q: nat): Complex
    requires q < 4
  {
    match q
    case 0 => Complex(v * 1.0, v * 0.0)
    case 1 => Complex(v * 0.0, v * 1.0)
    case 2 => Complex(v * -1.0, v * 0.0)
    case _ => Complex(v * 0.0, v * -1.0)
  }

  /** w: every os-th sample of v, rotated by a quarter turn more each time, with half a pulse
      length of padding in front and behind. */
  function RotatedAt(os: nat, pulseLen: nat, bits: seq<nat>, i: nat): Complex
    requires os > 0
  {
    if i < pulseLen / 2 || i - pulseLen / 2 >= SlotLen(os) || (i - pulseLen / 2) % os != 0 then ZERO
    else Rotate(RampedAt(os, bits, i - pulseLen / 2), (i - pulseLen / 2) / os % 4)
  }

  function W(os: nat, pulseLen: nat, bits: seq<nat>): (w: seq<Complex>)
    requires os > 0
    ensures |w| == SlotLen(os) + pulseLen
    ensures forall i :: 0 <= i < |w| ==> w[i] == RotatedAt(os, pulseLen, bits, i)
  {
    seq(SlotLen(os) + pulseLen, i requires 0 <= i => RotatedAt(os, pulseLen, bits, i))
  }

  /** The burst both modulators are to produce. */
  function Modulated(os: nat, g: seq<real>, bits: seq<nat>): (out: seq<Complex>)
    requires os > 0
    ensures |out| == SlotLen(os)
  {
    var w := W(os, |g|, bits);
    if bits == [] then seq(SlotLen(os), _ => ZERO)
    else seq(SlotLen(os), n requires 0 <= n < SlotLen(os) => Conv(w, g, n))
  }

  /** Sample i of w is on the oversampling grid, which starts half a pulse length in. */
  predicate OnGrid(i: nat, pulseLen: nat, os: nat)
    requires os > 0
  {
    i >= pulseLen / 2 && (i - pulseLen / 2) % os == 0
  }

  /** w is zero off the grid, and on it purely real or purely imaginary. This is all that
      modulate() uses. */
  ghost predicate SparseGrid(w: seq<Complex>, pulseLen: nat, os: nat)
    requires os > 0
  {
    && (forall i :: 0 <= i < |w| && !OnGrid(i, pulseLen, os) ==> w[i] == ZERO)
    && (forall i :: 0 <= i < |w| ==> w[i].re == 0.0 || w[i].im == 0.0)
  }

  lemma WIsSparse(os: nat, pulseLen: nat, bits: seq<nat>)
    requires os > 0
    ensures SparseGrid(W(os, pulseLen, bits), pulseLen, os)
  {
  }

  /** How many samples modulate() skips from sample n to the next one that can be nonzero. */
  function Skip(pulseLen: nat, os: nat, n: nat): (s: nat)
    requires os > 0
    ensures n + s >= pulseLen / 2
  {
    var h := pulseLen / 2;
    if n > h then (if (n - h) % os == 0 then 0 else os - (n - h) % os) else h - n
  }

  lemma SkipLandsOnGrid(pulseLen: nat, os: nat, n: nat)
    requires os > 0
    ensures OnGrid(n + Skip(pulseLen, os, n), pulseLen, os)
    ensures forall i :: n <= i < n + Skip(pulseLen, os, n) ==> !OnGrid(i, pulseLen, os)
  {
    var h := pulseLen / 2;
    if n > h && (n - h) % os != 0 {
      var q := (n - h) / os;
      RemainderUnique(n + Skip(pulseLen, os, n) - h, os, q + 1, 0);
      NoneBetween(h, os, q, pulseLen);
    } else if n <= h {
      RemainderUnique(0, os, 0, 0);
    }
  }

  lemma NoneBetween(h: nat, os: nat, q: nat, pulseLen: nat)
    requires os > 0 && h == pulseLen / 2
    ensures forall i :: h + q * os < i < h + q * os + os ==> !OnGrid(i, pulseLen, os)
  {
    forall i | h + q * os < i < h + q * os + os ensures !OnGrid(i, pulseLen, os) {
      MultipleBetween(i - h, q, os);
    }
  }

  lemma NextOnGrid(i: nat, pulseLen: nat, os: nat)
    requires os > 0 && OnGrid(i, pulseLen, os)
    ensures OnGrid(i + os, pulseLen, os)
    ensures forall k :: i < k < i + os ==> !OnGrid(k, pulseLen, os)
  {
    var h := pulseLen / 2;
    var q := (i - h) / os;
    assert i == h + q * os;
    RemainderUnique(i + os - h, os, q + 1, 0);
    NoneBetween(h, os, q, pulseLen);
  }

  class SignalProcessing {
    var oversample: nat
    var slotLen: nat
    var pulse: seq<real>       // m_laurentPA
    var rampOffset: nat
    var rampTrailIdx: nat

    ghost predicate Valid()
      reads this
    {
      && oversample > 0 && slotLen == SlotLen(oversample)
      && rampOffset == 4 * oversample && rampTrailIdx == 152 * oversample
      && rampTrailIdx < slotLen
    }

    constructor (oversample: nat, pulse: seq<real>)
      ensures Valid() && this.pulse == pulse
      ensures this.oversample == if oversample == 0 then 1 else oversample
    {
      this.pulse := pulse;
      this.oversample, slotLen, rampOffset, rampTrailIdx := 1, 0, 0, 0;
      new;
      SetOversample(oversample);
    }

    /** The ramp indices are in range for every oversampling, so ramping is never disabled. */
    method SetOversample(os: nat)
      modifies this
      ensures Valid() && pulse == old(pulse)
      ensures oversample == if os == 0 then 1 else os
    {
      oversample := if os > 0 then os else 1;
      slotLen := SlotLen(oversample);
      rampOffset := 4 * oversample;
      var wrong := false;
      if rampOffset < slotLen {
        rampTrailIdx := 147 * oversample + rampOffset + oversample;
        wrong := rampTrailIdx >= slotLen;
      } else {
        wrong := true;
      }
      if wrong {
        rampOffset, rampTrailIdx := 0, 0;
      }
    }

    /** modulatePrepareW: the symbols, before ramping. */
    method WriteSymbols(bits: seq<nat>) returns (v: array<real>)
      requires Valid()
      ensures fresh(v) && v.Length == slotLen
      ensures forall j :: 0 <= j < slotLen ==> v[j] == SymbolAt(oversample, bits, j)
    {
      hide SymbolAt, Iters;
      SymbolsStart(oversample, bits);
      v := new real[slotLen](_ => 0.0);
      var p, b := rampOffset, 0;
      var n := Iters(slotLen - rampOffset, oversample);
      while b < |bits| && b < n
        invariant b <= |bits| && 0 <= b <= n && p == rampOffset + b * oversample
        invariant forall j :: 0 <= j < slotLen ==>
          v[j] == if j < p then SymbolAt(oversample, bits, j) else 0.0
      {
        ItersInRange(slotLen - rampOffset, oversample, b);
        ExactMultiple(b, oversample);
        v[p] := if bits[b] != 0 then 1.0 else -1.0;
        SymbolStep(oversample, bits, b);
        p, b := p + oversample, b + 1;
      }
      SymbolsEnd(oversample, slotLen, bits, b);
    }

    /** modulatePrepareW: the ramped symbols. */
    method PrepareV(bits: seq<nat>) returns (v: array<real>)
      requires Valid()
      ensures fresh(v) && v.Length == slotLen
      ensures forall j :: 0 <= j < slotLen ==> v[j] == RampedAt(oversample, bits, j)
    {
      hide SymbolAt;
      v := WriteSymbols(bits);
      v[rampOffset - oversample] := v[rampOffset] * 0.5;
      v[rampTrailIdx] := v[rampTrailIdx - oversample] * 0.71;
    }

    /** One step of the loop that builds w: sample k of the grid. */
    method PlaceSample(w: array<Complex>, v: array<real>, d: nat, idx: nat, ghost bits: seq<nat>, ghost k: nat)
      requires Valid() && w.Length == slotLen + |pulse| && v.Length == slotLen
      requires d == k * oversample < slotLen && idx == k % 4
      requires v[d] == RampedAt(oversample, bits, d)
      requires forall i :: 0 <= i < w.Length ==>
        w[i] == if i < |pulse| / 2 + d then RotatedAt(oversample, |pulse|, bits, i) else ZERO
      modifies w
      ensures forall i :: 0 <= i < w.Length ==>
        w[i] == if i < |pulse| / 2 + d + oversample then RotatedAt(oversample, |pulse|, bits, i) else ZERO
    {
      hide RotatedAt, RampedAt, Rotate;
      RotatedStep(oversample, |pulse|, bits, k);
      w[|pulse| / 2 + d] := Rotate(v[d], idx);
    }

    /** modulatePrepareW. */
    method PrepareW(bits: seq<nat>) returns (w: array<Complex>)
      requires Valid()
      ensures fresh(w) && w[..] == W(oversample, |pulse|, bits)
    {
      hide RotatedAt, RampedAt, Rotate, Iters, SlotLen, NextIdx;
      var v := PrepareV(bits);
      var os, len, half := oversample, slotLen, |pulse| / 2;
      RotatedStart(os, |pulse|, bits);
      w := new Complex[len + |pulse|](_ => ZERO);
      var n := Iters(len, os);
      var k, idx, d := 0, 0, 0;
      while k < n
        invariant 0 <= k <= n && 0 <= idx < 4 && idx == k % 4 && d == k * os
        invariant w.Length == len + |pulse|
        invariant forall i :: 0 <= i < w.Length ==>
          w[i] == if i < half + d then RotatedAt(os, |pulse|, bits, i) else ZERO
        invariant forall j :: 0 <= j < len ==> v[j] == RampedAt(os, bits, j)
        modifies w
      {
        ItersInRange(len, os, k);
        ExactMultiple(k, os);
        PlaceSample(w, v, d, idx, bits, k);
        NextQuarter(k);
        k, idx, d := k + 1, NextIdx(idx), d + os;
      }
      RotatedEnd(os, |pulse|, bits, n);
      assert w[..] == W(oversample, |pulse|, bits);
    }

    /** The inner loop of modulate: only samples on the grid are read, and of each only the
        part that is not zero is added. */
    method SparseSample(w: array<Complex>, n: nat) returns (x: Complex)
      requires oversample > 0 && n + |pulse| <= w.Length
      requires SparseGrid(w[..], |pulse|, oversample)
      ensures x == Conv(w[..], pulse, n)
    {
      hide OnGrid, Skip, AddPart, ConvSum, SparseGrid;
      ghost var f := w[..];
      var os, len := oversample, |pulse|;
      x := ZERO;
      var skip := Skip(len, os, n);
      SparseStart(f, pulse, n, os);
      var gIndex := len - 1 - skip;
      while gIndex >= 0
        invariant gIndex < len && OnGrid(n + (len - 1 - gIndex), len, os)
        invariant x == ConvSum(f, pulse, n, 0, if gIndex >= 0 then len - 1 - gIndex else len)
      {
        SparseStep(f, pulse, n, len - 1 - gIndex, os);
        x := AddPart(x, w[n + (len - 1 - gIndex)], pulse[gIndex]);
        gIndex := gIndex - os;
      }
    }

    method Modulate(bits: seq<nat>) returns (out: array<Complex>)
      requires Valid()
      ensures fresh(out) && out[..] == Modulated(oversample, pulse, bits)
    {
      hide RotatedAt, RampedAt, SparseGrid, ConvSum, W;
      if bits == [] {
        out := new Complex[slotLen](_ => ZERO);
        return;
      }
      var w := PrepareW(bits);
      WIsSparse(oversample, |pulse|, bits);
      ghost var f := w[..];
      out := new Complex[w.Length - |pulse|](_ => ZERO);
      for i := 0 to out.Length
        invariant w[..] == f && forall n :: 0 <= n < i ==> out[n] == Conv(f, pulse, n)
      {
        out[i] := SparseSample(w, i);
      }
    }

    /** The loop over the pulse in convolution(): both ends of the window at once. */
    static method FoldedSample(f: array<Complex>, g: seq<real>, n: nat) returns (x: Complex)
      requires n + |g| <= f.Length && |g| > 0
      ensures x == Folded(f[..], g, n)
    {
      x := ZERO;
      for c := 0 to |g| / 2
        invariant x == FoldSum(f[..], g, n, c)
      {
        x := Plus(x, Times(Plus(f[n + c], f[n + |g| - 1 - c]), g[c]));
      }
      x := Plus(x, Times(f[n + |g| / 2], g[|g| / 2]));
    }

    static method Convolution(f: array<Complex>, g: seq<real>) returns (out: array<Complex>)
      ensures fresh(out)
      ensures |g| == 0 || f.Length < |g| ==> out[..] == seq(f.Length, _ => ZERO)
      ensures 0 < |g| <= f.Length ==> out.Length == f.Length - |g|
      ensures 0 < |g| <= f.Length ==> forall n :: 0 <= n < out.Length ==> out[n] == Folded(f[..], g, n)
    {
      hide FoldSum, Folded;
      if |g| == 0 || f.Length < |g| {
        out := new Complex[f.Length](_ => ZERO);
        return;
      }
      ghost var f0 := f[..];
      out := new Complex[f.Length - |g|](_ => ZERO);
      for i := 0 to out.Length
        invariant f[..] == f0 && forall n :: 0 <= n < i ==> out[n] == Folded(f0, g, n)
      {
        out[i] := FoldedSample(f, g, i);
      }
    }

    /** The general modulator agrees with the optimized one whenever the pulse folds. */
    method ModulateCommon(bits: seq<nat>) returns (out: array<Complex>)
      requires Valid()
      requires Palindrome(pulse) && (|pulse| == 0 || |pulse| % 2 == 1 || pulse[|pulse| / 2] == 0.0)
      ensures fresh(out) && out[..] == Modulated(oversample, pulse, bits)
    {
      if bits == [] {
        out := new Complex[slotLen](_ => ZERO);
        return;
      }
      var w := PrepareW(bits);
      out := Convolution(w, pulse);
      if |pulse| > 0 {
        forall n | 0 <= n < out.Length ensures out[n] == Conv(w[..], pulse, n) {
          FoldedIsConv(w[..], pulse, n);
        }
      }
    }
  }

  /** Add a product with a sample that is purely real or purely imaginary. */
  function AddPart(x: Complex, s: Complex, f: real): Complex {
    if s.re != 0.0 then x.(re := x.re + s.re * f) else x.(im := x.im + s.im * f)
  }

  lemma AddPartIsSum(x: Complex, s: Complex, f: real)
    requires s.re == 0.0 || s.im == 0.0
    ensures AddPart(x, s, f) == Plus(x, Times(s, f))
  {
  }

  lemma SparseStart(w: seq<Complex>, g: seq<real>, n: nat, os: nat)
    requires os > 0 && n + |g| <= |w| && SparseGrid(w, |g|, os)
    ensures OnGrid(n + Skip(|g|, os, n), |g|, os)
    ensures ConvSum(w, g, n, 0, if Skip(|g|, os, n) < |g| then Skip(|g|, os, n) else |g|) == ZERO
  {
    SkipLandsOnGrid(|g|, os, n);
    SkipZeros(w, g, n, 0, if Skip(|g|, os, n) < |g| then Skip(|g|, os, n) else |g|);
  }

  /** One grid sample, and the zeros up to the next. */
  lemma SparseStep(w: seq<Complex>, g: seq<real>, n: nat, i: nat, os: nat)
    requires os > 0 && n + |g| <= |w| && i < |g| && SparseGrid(w, |g|, os) && OnGrid(n + i, |g|, os)
    ensures OnGrid(n + i + os, |g|, os)
    ensures AddPart(ConvSum(w, g, n, 0, i), w[n + i], g[|g| - 1 - i])
         == ConvSum(w, g, n, 0, if i + os < |g| then i + os else |g|)
  {
    hide Times, OnGrid;
    NextOnGrid(n + i, |g|, os);
    SkipZeros(w, g, n, i + 1, if i + os < |g| then i + os else |g|);
    AddPartIsSum(ConvSum(w, g, n, 0, i), w[n + i], g[|g| - 1 - i]);
  }

  function NextIdx(idx: nat): nat {
    (idx + 1) % 4
  }

  lemma NextQuarter(k: nat)
    ensures NextIdx(k % 4) == (k + 1) % 4 && NextIdx(k % 4) < 4
  {
  }

  /** Loop counts of sigProcIters: step k stays inside, and after the last one the end is
      reached. */
  lemma ItersInRange(len: nat, step: nat, k: nat)
    requires step > 0 && k < Iters(len, step)
    ensures k * step < len
  {
    var n := Iters(len, step);
    if step > 1 {
      var r := (len + step - 1) % step;
      assert n * step + r == len + step - 1;
      assert (n - 1) * step < len;
      Monotone(k, n - 1, step);
    }
  }

  lemma ItersReachEnd(len: nat, step: nat)
    requires step > 0
    ensures Iters(len, step) * step >= len
  {
  }

  lemma Monotone(a: int, b: int, m: nat)
    requires a <= b
    ensures a * m <= b * m
  {
  }

  lemma SymbolsStart(os: nat, bits: seq<nat>)
    requires os > 0
    ensures forall j: nat :: j < 4 * os ==> SymbolAt(os, bits, j) == 0.0
  {
  }

  lemma RotatedStart(os: nat, pulseLen: nat, bits: seq<nat>)
    requires os > 0
    ensures forall i: nat :: i < pulseLen / 2 ==> RotatedAt(os, pulseLen, bits, i) == ZERO
  {
  }

  /** The symbol at p and the zeros up to the next symbol. */
  lemma SymbolStep(os: nat, bits: seq<nat>, b: nat)
    requires os > 0 && b < |bits|
    ensures SymbolAt(os, bits, 4 * os + b * os) == if bits[b] != 0 then 1.0 else -1.0
    ensures forall j :: 4 * os + b * os < j < 4 * os + b * os + os ==> SymbolAt(os, bits, j) == 0.0
  {
    ExactMultiple(b, os);
    forall j | 4 * os + b * os < j < 4 * os + b * os + os ensures SymbolAt(os, bits, j) == 0.0 {
      MultipleBetween(j - 4 * os, b, os);
    }
  }

  /** Past the last symbol written there is no symbol left inside the slot. */
  lemma SymbolsEnd(os: nat, len: nat, bits: seq<nat>, b: nat)
    requires os > 0 && len >= 4 * os && (b == |bits| || b == Iters(len - 4 * os, os))
    ensures forall j :: 4 * os + b * os <= j < len ==> SymbolAt(os, bits, j) == 0.0
  {
    forall j | 4 * os + b * os <= j < len ensures SymbolAt(os, bits, j) == 0.0 {
      if b == |bits| {
        ExactMultiple(b, os);
        QuotientMonotone(b * os, j - 4 * os, os);
      } else {
        ItersReachEnd(len - 4 * os, os);
        assert false;
      }
    }
  }

  lemma QuotientMonotone(x: nat, y: nat, m: nat)
    requires m > 0 && x <= y
    ensures x / m <= y / m
  {
    if x / m > y / m {
      Monotone(y / m + 1, x / m, m);
    }
  }

  lemma RotatedStep(os: nat, pulseLen: nat, bits: seq<nat>, k: nat)
    requires os > 0 && k * os < SlotLen(os)
    ensures RotatedAt(os, pulseLen, bits, pulseLen / 2 + k * os) == Rotate(RampedAt(os, bits, k * os), k % 4)
    ensures forall i :: pulseLen / 2 + k * os < i < pulseLen / 2 + k * os + os
                    ==> RotatedAt(os, pulseLen, bits, i) == ZERO
  {
    ExactMultiple(k, os);
    forall i | pulseLen / 2 + k * os < i < pulseLen / 2 + k * os + os
      ensures RotatedAt(os, pulseLen, bits, i) == ZERO
    {
      MultipleBetween(i - pulseLen / 2, k, os);
    }
  }

  lemma RotatedEnd(os: nat, pulseLen: nat, bits: seq<nat>, n: nat)
    requires os > 0 && n == Iters(SlotLen(os), os)
    ensures forall i :: pulseLen / 2 + n * os <= i ==> RotatedAt(os, pulseLen, bits, i) == ZERO
  {
    ItersReachEnd(SlotLen(os), os);
  }
}
