/** The sums of Correlation.dfy as linear systems: what a single sample contributes, and that samples
    add up. The two together determine every output. */
module Filters {
  import opened Signal
  import opened Correlation
  import Pulses

  function Conjugate(a: Complex): Complex {
    Complex(a.re, -a.im)
  }

  /** Nothing but sample p. */
  ghost predicate OnlyAt(x: seq<Complex>, p: int) {
    0 <= p < |x| && forall k :: 0 <= k < |x| && k != p ==> x[k] == ZERO
  }

  /** z is the sum of x and y, sample by sample. */
  ghost predicate IsSum(x: seq<Complex>, y: seq<Complex>, z: seq<Complex>) {
    |x| == |y| == |z| && forall k :: 0 <= k < |z| ==> z[k] == Plus(x[k], y[k])
  }

  lemma PadAdds(x: seq<Complex>, y: seq<Complex>, z: seq<Complex>, k: int)
    requires IsSum(x, y, z)
    ensures Pad(z, k) == Plus(Pad(x, k), Pad(y, k))
  {
  }

  lemma PadOnly(x: seq<Complex>, p: int, k: int)
    requires OnlyAt(x, p)
    ensures Pad(x, k) == if k == p then x[p] else ZERO
  {
  }

  lemma ZeroTimes(f: real)
    ensures Times(ZERO, f) == ZERO
  {
  }

  lemma TimesAdds(a: Complex, b: Complex, f: real)
    ensures Times(Plus(a, b), f) == Plus(Times(a, f), Times(b, f))
  {
  }

  // ---- Correlation ----

  /** A sample at p contributes to the output whose pulse begins at `base` the tap that lies over it. */
  lemma {:induction false} CorrOfSample(x: seq<Complex>, g: seq<real>, base: int, p: int, b: nat)
    requires OnlyAt(x, p) && b <= |g|
    ensures CorrSum(x, g, base, 0, b) == if 0 <= p - base < b then Times(x[p], g[p - base]) else ZERO
    decreases b
  {
    hide Times, Pad, OnlyAt;
    if b > 0 {
      CorrOfSample(x, g, base, p, b - 1);
      PadOnly(x, p, base + b - 1);
      ZeroTimes(g[b - 1]);
    }
  }

  lemma {:induction false} CorrAdds(x: seq<Complex>, y: seq<Complex>, z: seq<Complex>, g: seq<real>, base: int, b: nat)
    requires IsSum(x, y, z) && b <= |g|
    ensures CorrSum(z, g, base, 0, b) == Plus(CorrSum(x, g, base, 0, b), CorrSum(y, g, base, 0, b))
    decreases b
  {
    hide Times, Pad, IsSum;
    if b > 0 {
      CorrAdds(x, y, z, g, base, b - 1);
      PadAdds(x, y, z, base + b - 1);
      TimesAdds(Pad(x, base + b - 1), Pad(y, base + b - 1), g[b - 1]);
    }
  }

  // ---- Equalizer ----

  /** The real part of the sample times the conjugate of the channel estimate. */
  function Correlated(s: Complex, c: Complex): real {
    Pulses.Multiply(s, Conjugate(c)).re
  }

  lemma CorrelatedIs(s: Complex, c: Complex)
    ensures Correlated(s, c) == s.re * c.re + s.im * c.im && Correlated(ZERO, c) == 0.0
  {
  }

  lemma CorrelatedAdds(s: Complex, t: Complex, c: Complex)
    ensures Correlated(Plus(s, t), c) == Correlated(s, c) + Correlated(t, c)
  {
  }

  lemma DotStep(x: seq<Complex>, y: seq<Complex>, base: int, b: nat)
    requires b < |y|
    ensures DotSum(x, y, base, 0, b + 1) == DotSum(x, y, base, 0, b) + Correlated(Pad(x, base + b), y[b])
  {
    hide Correlated;
    CorrelatedIs(Pad(x, base + b), y[b]);
  }

  lemma {:induction false} DotOfSample(x: seq<Complex>, y: seq<Complex>, base: int, p: int, b: nat)
    requires OnlyAt(x, p) && b <= |y|
    ensures DotSum(x, y, base, 0, b) == if 0 <= p - base < b then Correlated(x[p], y[p - base]) else 0.0
    decreases b
  {
    hide Correlated, Pad, OnlyAt, DotSum;
    if b > 0 {
      DotOfSample(x, y, base, p, b - 1);
      DotStep(x, y, base, b - 1);
      PadOnly(x, p, base + (b - 1));
      CorrelatedIs(ZERO, y[b - 1]);
    } else {
      NoTaps(x, y, base);
    }
  }

  lemma NoTaps(x: seq<Complex>, y: seq<Complex>, base: int)
    ensures DotSum(x, y, base, 0, 0) == 0.0
  {
  }

  lemma {:induction false} DotAdds(x: seq<Complex>, x': seq<Complex>, z: seq<Complex>, y: seq<Complex>,
                                    base: int, b: nat)
    requires IsSum(x, x', z) && b <= |y|
    ensures DotSum(z, y, base, 0, b) == DotSum(x, y, base, 0, b) + DotSum(x', y, base, 0, b)
    decreases b
  {
    hide Correlated, Pad, IsSum, DotSum;
    if b > 0 {
      DotAdds(x, x', z, y, base, b - 1);
      DotStep(x, y, base, b - 1);
      DotStep(x', y, base, b - 1);
      DotStep(z, y, base, b - 1);
      PadAdds(x, x', z, base + (b - 1));
      CorrelatedAdds(Pad(x, base + (b - 1)), Pad(x', base + (b - 1)), y[b - 1]);
    } else {
      NoTaps(x, y, base);
      NoTaps(x', y, base);
      NoTaps(z, y, base);
    }
  }

  // ---- Half band filter ----

  lemma EvenStep(x: seq<Complex>, h: seq<real>, base: int, m: nat)
    requires m < HalfLen(|h|)
    ensures EvenSum(x, h, base, 0, m + 1) == Plus(EvenSum(x, h, base, 0, m), Times(Pad(x, base + 2 * m), h[2 * m]))
  {
    hide Times, Pad;
  }

  lemma {:induction false} EvenTap(x: seq<Complex>, h: seq<real>, base: int, k: int, m: nat)
    requires OnlyAt(x, base + 2 * k) && m <= HalfLen(|h|)
    ensures EvenSum(x, h, base, 0, m) == if 0 <= k < m then Times(x[base + 2 * k], h[2 * k]) else ZERO
    decreases m
  {
    hide Times, Pad, OnlyAt, EvenSum;
    if m > 0 {
      EvenTap(x, h, base, k, m - 1);
      EvenStep(x, h, base, m - 1);
      PadOnly(x, base + 2 * k, base + 2 * (m - 1));
      ZeroTimes(h[2 * (m - 1)]);
    } else {
      NoEvenTaps(x, h, base);
    }
  }

  lemma {:induction false} OddTap(x: seq<Complex>, h: seq<real>, base: int, k: int, m: nat)
    requires OnlyAt(x, base + 2 * k + 1) && m <= HalfLen(|h|)
    ensures EvenSum(x, h, base, 0, m) == ZERO
    decreases m
  {
    hide Times, Pad, OnlyAt, EvenSum;
    if m > 0 {
      OddTap(x, h, base, k, m - 1);
      EvenStep(x, h, base, m - 1);
      PadOnly(x, base + 2 * k + 1, base + 2 * (m - 1));
      ZeroTimes(h[2 * (m - 1)]);
    } else {
      NoEvenTaps(x, h, base);
    }
  }

  /** Only the even taps count. */
  lemma EvenOfSample(x: seq<Complex>, h: seq<real>, base: int, p: int, m: nat)
    requires OnlyAt(x, p) && m <= HalfLen(|h|)
    ensures EvenSum(x, h, base, 0, m)
         == if 0 <= p - base < 2 * m && (p - base) % 2 == 0 then Times(x[p], h[p - base]) else ZERO
  {
    hide Times, Pad, OnlyAt, EvenSum;
    var k := (p - base) / 2;
    if (p - base) % 2 == 0 {
      assert p == base + 2 * k;
      EvenTap(x, h, base, k, m);
    } else {
      assert p == base + 2 * k + 1;
      OddTap(x, h, base, k, m);
    }
  }

  lemma NoEvenTaps(x: seq<Complex>, h: seq<real>, base: int)
    ensures EvenSum(x, h, base, 0, 0) == ZERO
  {
  }

  lemma {:induction false} EvenAdds(x: seq<Complex>, y: seq<Complex>, z: seq<Complex>, h: seq<real>, base: int, m: nat)
    requires IsSum(x, y, z) && m <= HalfLen(|h|)
    ensures EvenSum(z, h, base, 0, m) == Plus(EvenSum(x, h, base, 0, m), EvenSum(y, h, base, 0, m))
    decreases m
  {
    hide Times, Pad, IsSum;
    if m > 0 {
      EvenAdds(x, y, z, h, base, m - 1);
      PadAdds(x, y, z, base + 2 * (m - 1));
      TimesAdds(Pad(x, base + 2 * (m - 1)), Pad(y, base + 2 * (m - 1)), h[2 * (m - 1)]);
    }
  }
}
