/** The modulated burst as a sum of pulses, one for each symbol period (Laurent's form of GMSK,
    section 2.6 of GSM 05.04, with the power ramp of SignalProcessing in transceiver/sigproc.cpp).
    The modulator instead sums over the pulse, sample by sample. */
module Pulses {
  import opened Arithmetic
  import opened Signal
  import opened Modulator

  function Multiply(a: Complex, b: Complex): Complex {
    Complex(a.re * b.re - a.im * b.im, a.re * b.im + a.im * b.re)
  }

  const I := Complex(0.0, 1.0)

  /** The k-th power of the imaginary unit. */
  function Turn(k: nat): Complex {
    if k == 0 then Complex(1.0, 0.0) else Multiply(I, Turn(k - 1))
  }

  /** Symbol period k of the burst: the bits occupy 4 and on, a set bit is 1 and a clear one -1. */
  function Symbol(bits: seq<nat>, k: nat): real {
    if 4 <= k < 4 + |bits| then if bits[k - 4] != 0 then 1.0 else -1.0 else 0.0
  }

  /** ... with half the first symbol before it, and the symbol of period 151 weakened after it. */
  function Level(bits: seq<nat>, k: nat): real {
    if k == 3 then Symbol(bits, 4) * 0.5 else if k == 152 then Symbol(bits, 151) * 0.71 else Symbol(bits, k)
  }

  const PERIODS := 157

  lemma MultiplyByI(z: Complex)
    ensures Multiply(I, z) == Complex(-z.im, z.re)
  {
  }

  lemma MultiplyByReal(z: Complex, v: real)
    ensures Multiply(z, Complex(v, 0.0)) == Times(z, v)
  {
  }

  lemma {:induction false} TurnIs(k: nat)
    ensures Turn(k) == match k % 4 case 0 => Complex(1.0, 0.0) case 1 => I
                                   case 2 => Complex(-1.0, 0.0) case _ => Complex(0.0, -1.0)
  {
    hide Multiply;
    if k > 0 {
      TurnIs(k - 1);
      MultiplyByI(Turn(k - 1));
    }
  }

  lemma SymbolIs(os: nat, bits: seq<nat>, k: nat)
    requires os > 0
    ensures SymbolAt(os, bits, k * os) == Symbol(bits, k)
  {
    if k >= 4 {
      ExactMultiple(k - 4, os);
      assert k * os - 4 * os == (k - 4) * os;
    } else {
      assert k * os < 4 * os;
    }
  }

  lemma SameMultiple(k: nat, m: nat, os: nat)
    requires os > 0
    ensures k * os == m * os <==> k == m
  {
    NonzeroMultiple(k - m, os);
  }

  lemma LevelIs(os: nat, bits: seq<nat>, k: nat)
    requires os > 0
    ensures RampedAt(os, bits, k * os) == Level(bits, k)
  {
    SymbolIs(os, bits, k);
    SymbolIs(os, bits, 4);
    SymbolIs(os, bits, 151);
    SameMultiple(k, 152, os);
    SameMultiple(k, 3, os);
  }

  lemma RotateIs(v: real, k: nat)
    ensures Rotate(v, k % 4) == Multiply(Turn(k), Complex(v, 0.0))
  {
    hide Multiply, Turn;
    TurnIs(k);
    MultiplyByReal(Turn(k), v);
  }

  /** Sample k of the grid of w is the level of period k turned by k quarters: each next one is
      turned a quarter further, the first is not turned. */
  lemma GridSample(os: nat, pulseLen: nat, bits: seq<nat>, k: nat)
    requires os > 0 && k < PERIODS
    ensures k * os < SlotLen(os)
    ensures W(os, pulseLen, bits)[pulseLen / 2 + k * os] == Multiply(Turn(k), Complex(Level(bits, k), 0.0))
  {
    hide Turn, Rotate, RampedAt, Level, Multiply, RotatedAt;
    Monotone(k, 156, os);
    LevelIs(os, bits, k);
    RotatedStep(os, pulseLen, bits, k);
    RotateIs(Level(bits, k), k);
  }

  /** From one period to the next the sample turns by a quarter, apart from its level. */
  lemma QuarterFurther(os: nat, pulseLen: nat, bits: seq<nat>, k: nat)
    requires os > 0 && k + 1 < PERIODS
    ensures k * os < SlotLen(os) && (k + 1) * os < SlotLen(os)
    ensures var w, h := W(os, pulseLen, bits), pulseLen / 2;
      Times(w[h + (k + 1) * os], Level(bits, k)) == Times(Multiply(I, w[h + k * os]), Level(bits, k + 1))
  {
    hide Level, Symbol, W, Multiply;
    GridSample(os, pulseLen, bits, k);
    GridSample(os, pulseLen, bits, k + 1);
    Turned(Turn(k), Level(bits, k), Level(bits, k + 1));
  }

  /** The first symbol is real, 1 for a set bit and -1 for a clear one. The sample before it has half
      its amplitude, a quarter turn behind; that of period 152 has 0.71 times the amplitude of the
      one before it, a quarter turn ahead. */
  lemma RampRatios(os: nat, pulseLen: nat, bits: seq<nat>)
    requires os > 0 && bits != []
    ensures 152 * os < SlotLen(os)
    ensures var w, h := W(os, pulseLen, bits), pulseLen / 2;
      && w[h + 4 * os] == Complex(if bits[0] != 0 then 1.0 else -1.0, 0.0)
      && Multiply(I, w[h + 3 * os]) == Times(w[h + 4 * os], 0.5)
      && w[h + 152 * os] == Times(Multiply(I, w[h + 151 * os]), 0.71)
  {
    hide Level, Turn, W, Multiply, Times;
    var w, h := W(os, pulseLen, bits), pulseLen / 2;
    GridSample(os, pulseLen, bits, 3);
    GridSample(os, pulseLen, bits, 4);
    GridSample(os, pulseLen, bits, 151);
    GridSample(os, pulseLen, bits, 152);
    RampsFrom(bits, w[h + 3 * os], w[h + 4 * os], w[h + 151 * os], w[h + 152 * os]);
  }

  lemma RampsFrom(bits: seq<nat>, w3: Complex, w4: Complex, w151: Complex, w152: Complex)
    requires bits != []
    requires w3 == Multiply(Turn(3), Complex(Level(bits, 3), 0.0))
    requires w4 == Multiply(Turn(4), Complex(Level(bits, 4), 0.0))
    requires w151 == Multiply(Turn(151), Complex(Level(bits, 151), 0.0))
    requires w152 == Multiply(Turn(152), Complex(Level(bits, 152), 0.0))
    ensures w4 == Complex(if bits[0] != 0 then 1.0 else -1.0, 0.0)
    ensures Multiply(I, w3) == Times(w4, 0.5) && w152 == Times(Multiply(I, w151), 0.71)
  {
    hide Symbol, Level, Turn, Multiply, Times;
    RampLevels(bits);
    NextTurn(3);
    NextTurn(151);
    FirstSymbol(bits);
    Weakened(Turn(3), Level(bits, 4), 0.5, Level(bits, 3));
    Strengthened(Turn(151), Level(bits, 151), 0.71, Level(bits, 152));
  }

  lemma RampLevels(bits: seq<nat>)
    ensures Level(bits, 3) == Symbol(bits, 4) * 0.5 && Level(bits, 4) == Symbol(bits, 4)
    ensures Level(bits, 151) == Symbol(bits, 151) && Level(bits, 152) == Symbol(bits, 151) * 0.71
  {
    hide Symbol;
  }

  lemma NextTurn(k: nat)
    ensures Turn(k + 1) == Multiply(I, Turn(k))
  {
    hide Multiply;
  }

  lemma FirstSymbol(bits: seq<nat>)
    requires bits != []
    ensures Multiply(Turn(4), Complex(Symbol(bits, 4), 0.0)) == Complex(if bits[0] != 0 then 1.0 else -1.0, 0.0)
  {
    hide Multiply, Turn;
    TurnIs(4);
    MultiplyByReal(Turn(4), Symbol(bits, 4));
  }

  lemma Weakened(t: Complex, s: real, a: real, sa: real)
    requires sa == s * a
    ensures Multiply(I, Multiply(t, Complex(sa, 0.0))) == Times(Multiply(Multiply(I, t), Complex(s, 0.0)), a)
  {
    hide Multiply;
    MultiplyByReal(t, sa);
    MultiplyByI(Times(t, sa));
    MultiplyByI(t);
    MultiplyByReal(Multiply(I, t), s);
  }

  lemma Strengthened(t: Complex, s: real, a: real, sa: real)
    requires sa == s * a
    ensures Multiply(Multiply(I, t), Complex(sa, 0.0)) == Times(Multiply(I, Multiply(t, Complex(s, 0.0))), a)
  {
    hide Multiply;
    MultiplyByReal(t, s);
    MultiplyByI(Times(t, s));
    MultiplyByI(t);
    MultiplyByReal(Multiply(I, t), sa);
  }

  lemma Turned(t: Complex, a: real, b: real)
    ensures Times(Multiply(Multiply(I, t), Complex(b, 0.0)), a)
         == Times(Multiply(I, Multiply(t, Complex(a, 0.0))), b)
  {
    hide Multiply;
    MultiplyByI(t);
    MultiplyByReal(t, a);
    MultiplyByReal(Multiply(I, t), b);
    MultiplyByI(Times(t, a));
  }

  // ---- The sum of pulses ----

  /** What the pulse of period k adds at output n: the sample of the pulse, taken from its end,
      that lies there. */
  function Pulse(os: nat, g: seq<real>, bits: seq<nat>, n: nat, k: nat): Complex {
    var i := |g| / 2 + k * os - n;
    if 0 <= i < |g| then Times(Multiply(Turn(k), Complex(Level(bits, k), 0.0)), g[|g| - 1 - i]) else ZERO
  }

  function PulseSum(os: nat, g: seq<real>, bits: seq<nat>, n: nat, periods: nat): Complex {
    if periods == 0 then ZERO
    else Plus(PulseSum(os, g, bits, n, periods - 1), Pulse(os, g, bits, n, periods - 1))
  }

  /** The pulses so far as they lie before tap b. */
  function PartSum(os: nat, g: seq<real>, bits: seq<nat>, n: nat, b: nat, periods: nat): Complex {
    if periods == 0 then ZERO
    else
      Plus(PartSum(os, g, bits, n, b, periods - 1),
           if |g| / 2 + (periods - 1) * os < n + b then Pulse(os, g, bits, n, periods - 1) else ZERO)
  }

  lemma {:induction false} AllTaps(os: nat, g: seq<real>, bits: seq<nat>, n: nat, periods: nat)
    ensures PartSum(os, g, bits, n, |g|, periods) == PulseSum(os, g, bits, n, periods)
    ensures PartSum(os, g, bits, n, 0, periods) == ZERO
  {
    if periods > 0 {
      AllTaps(os, g, bits, n, periods - 1);
    }
  }

  /** Tap b adds the pulse that lies there, if there is one. */
  lemma {:induction false} OneTap(os: nat, g: seq<real>, bits: seq<nat>, n: nat, b: nat, periods: nat, k: int)
    requires os > 0 && b < |g|
    requires forall m: nat :: |g| / 2 + m * os == n + b <==> m == k
    ensures PartSum(os, g, bits, n, b + 1, periods)
         == Plus(PartSum(os, g, bits, n, b, periods),
                 if 0 <= k < periods then Pulse(os, g, bits, n, k) else ZERO)
  {
    hide Pulse;
    if periods > 0 {
      OneTap(os, g, bits, n, b, periods - 1, k);
      assert |g| / 2 + (periods - 1) * os == n + b <==> periods - 1 == k;
    }
  }

  /** The period whose sample is at position i of w, -1 if there is none. */
  function PeriodAt(os: nat, pulseLen: nat, i: nat): int
    requires os > 0
  {
    if OnGrid(i, pulseLen, os) then (i - pulseLen / 2) / os else -1
  }

  lemma PeriodAtIs(os: nat, pulseLen: nat, i: nat, m: nat)
    requires os > 0
    ensures pulseLen / 2 + m * os == i <==> m == PeriodAt(os, pulseLen, i)
  {
    ExactMultiple(m, os);
  }

  /** Tap b of the convolution reads the sample of that period, or zero. */
  lemma TapIs(os: nat, g: seq<real>, bits: seq<nat>, n: nat, b: nat)
    requires os > 0 && n + |g| <= SlotLen(os) + |g| && b < |g|
    ensures var k := PeriodAt(os, |g|, n + b);
      Term(W(os, |g|, bits), g, n, b) == if 0 <= k < PERIODS then Pulse(os, g, bits, n, k) else ZERO
  {
    hide Turn, Multiply, Level, RampedAt, Rotate;
    var w, k := W(os, |g|, bits), PeriodAt(os, |g|, n + b);
    if 0 <= k < PERIODS {
      PeriodAtIs(os, |g|, n + b, k);
      GridSample(os, |g|, bits, k);
    } else if k >= PERIODS {
      PeriodAtIs(os, |g|, n + b, k);
      Monotone(157, k, os);
    }
  }

  lemma {:induction false} TapsAreParts(os: nat, g: seq<real>, bits: seq<nat>, n: nat, b: nat)
    requires os > 0 && n <= SlotLen(os) && b <= |g|
    ensures ConvSum(W(os, |g|, bits), g, n, 0, b) == PartSum(os, g, bits, n, b, PERIODS)
    decreases b
  {
    hide Term, Pulse, PartSum, W, SlotLen, PeriodAt;
    if b == 0 {
      AllTaps(os, g, bits, n, PERIODS);
    } else {
      TapsAreParts(os, g, bits, n, b - 1);
      TapIs(os, g, bits, n, b - 1);
      var k := PeriodAt(os, |g|, n + (b - 1));
      forall m: nat ensures |g| / 2 + m * os == n + (b - 1) <==> m == k {
        PeriodAtIs(os, |g|, n + (b - 1), m);
      }
      OneTap(os, g, bits, n, b - 1, PERIODS, k);
    }
  }

  lemma {:induction false} NothingToSend(os: nat, g: seq<real>, n: nat, periods: nat)
    ensures PulseSum(os, g, [], n, periods) == ZERO
  {
    hide Turn, Multiply;
    if periods > 0 {
      NothingToSend(os, g, n, periods - 1);
      MultiplyByReal(Turn(periods - 1), Level([], periods - 1));
    }
  }

  /** Every sample of a modulated burst is the sum over the 157 symbol periods of their pulses, each
      scaled by the level of its period and turned by a quarter for every period before it. */
  lemma ModulatedIsSumOfPulses(os: nat, g: seq<real>, bits: seq<nat>, n: nat)
    requires os > 0 && n < SlotLen(os)
    ensures Modulated(os, g, bits)[n] == PulseSum(os, g, bits, n, PERIODS)
  {
    hide PulseSum, PartSum, ConvSum, W, SlotLen;
    if bits == [] {
      NothingToSend(os, g, n, PERIODS);
    } else {
      TapsAreParts(os, g, bits, n, |g|);
      AllTaps(os, g, bits, n, PERIODS);
    }
  }
}
