/** The loops that split a sliding sum into start, middle and end so that no sample outside the
    window is read: correlate and defaultEqualize (transceiver/sigproc.cpp) and the half band
    filter (transceiver/transceiver.cpp). */
module Correlation {
  import opened Arithmetic
  import opened Signal

  /** The window padded with zeros on both sides. */
  function Pad(x: seq<Complex>, k: int): Complex {
    if 0 <= k < |x| then x[k] else ZERO
  }

  /** SUM over a <= j < b of x[base + j] * g[j], x padded with zeros. */
  function CorrSum(x: seq<Complex>, g: seq<real>, base: int, a: nat, b: nat): Complex
    requires a <= b <= |g|
    decreases b - a
  {
    if a == b then ZERO else Plus(CorrSum(x, g, base, a, b - 1), Times(Pad(x, base + b - 1), g[b - 1]))
  }

  /** A tap whose sample lies outside the window adds nothing. */
  lemma CorrSkip(x: seq<Complex>, g: seq<real>, base: int, a: nat, b: nat)
    requires a <= b < |g| && !(0 <= base + b < |x|)
    ensures CorrSum(x, g, base, a, b + 1) == CorrSum(x, g, base, a, b)
  {
    assert Pad(x, base + b) == ZERO;
  }

  lemma {:induction false} CorrFront(x: seq<Complex>, g: seq<real>, base: int, a: nat, b: nat)
    requires a <= b <= |g| && (base + a <= 0 || a == 0)
    ensures CorrSum(x, g, base, 0, b) == CorrSum(x, g, base, a, b)
    decreases b
  {
    hide Pad;
    if b > a {
      CorrFront(x, g, base, a, b - 1);
    } else if b > 0 {
      CorrFront(x, g, base, b - 1, b - 1);
      CorrSkip(x, g, base, 0, b - 1);
    }
  }

  lemma {:induction false} CorrEnd(x: seq<Complex>, g: seq<real>, base: int, b: nat, e: nat)
    requires b <= e <= |g| && (base + b >= |x| || b == e)
    ensures CorrSum(x, g, base, 0, e) == CorrSum(x, g, base, 0, b)
    decreases e
  {
    hide Pad, CorrSum;
    if e > b {
      CorrEnd(x, g, base, b, e - 1);
      CorrSkip(x, g, base, 0, e - 1);
    }
  }

  /** The whole sum: taps that fall outside the window add nothing. */
  lemma CorrSumClip(x: seq<Complex>, g: seq<real>, base: int, a: nat, b: nat, e: nat)
    requires a <= b <= e <= |g|
    requires base + a <= 0 || a == 0
    requires base + b >= |x| || b == e
    ensures CorrSum(x, g, base, 0, e) == CorrSum(x, g, base, a, b)
  {
    hide CorrSum;
    CorrEnd(x, g, base, b, e);
    CorrFront(x, g, base, a, b);
  }

  /** The loops of correlate use tap j for output i: all taps in the middle, clipped at the start
      and at the end. `odd` is the parity the code adds to the middle part. */
  predicate Visited(half: nat, taps: nat, len: nat, odd: nat, i: nat, j: nat) {
    && i < len
    && (if i <= half then half - i <= j < taps
        else if i < len - (half + 1) + odd then j < taps
        else j < len - i + half)
  }

  /** Every sample the loops read lies in the window, and every tap exists, exactly if the
      number of taps is odd or the signal length is even. */
  lemma ReadsInsideIff(taps: nat, len: nat, odd: nat)
    requires taps > 0 && odd < 2
    requires len >= 2 * ((taps - 1) / 2 + 1)
    ensures var half := (taps - 1) / 2;
      (forall i: nat, j: nat :: Visited(half, taps, len, odd, i, j) ==> j < taps && 0 <= i - half + j < len)
      <==> (taps % 2 == 1 || odd == 0)
  {
    var half := (taps - 1) / 2;
    if taps % 2 == 0 && odd == 1 {
      assert Visited(half, taps, len, odd, len - (half + 1), taps - 1);
    }
  }

  /** The inner loop: taps `from` to `to` against the samples of the window that starts at
      `start`, shifted by `base`. */
  method Row(a1: array<Complex>, start: nat, len: nat, a2: seq<real>, base: int, from: nat, to: nat)
    returns (x: Complex)
    requires start + len <= a1.Length && from <= to <= |a2|
    requires from < to ==> 0 <= base + from && base + to <= len
    ensures x == CorrSum(a1[start..start + len], a2, base, from, to)
  {
    x := ZERO;
    for j := from to to
      invariant x == CorrSum(a1[start..start + len], a2, base, from, j)
    {
      assert a1[start..start + len][base + j] == a1[start + base + j];
      x := Plus(x, Times(a1[start + base + j], a2[j]));
    }
  }

  /** correlate: every output is the zero padded sum over the whole pulse. */
  method Correlate(out: array<Complex>, a1: array<Complex>, a1Start: nat, a1Len: nat, a2: seq<real>)
    requires out != a1 && out.Length == a1Len && a1Start + a1Len <= a1.Length
    requires |a2| > 0 && a1Len >= 2 * ((|a2| - 1) / 2 + 1)
    requires |a2| % 2 == 1 || a1.Length % 2 == 0
    modifies out
    ensures var half, x := (|a2| - 1) / 2, a1[a1Start..a1Start + a1Len];
      forall i :: 0 <= i < a1Len ==> out[i] == CorrSum(x, a2, i - half, 0, |a2|)
  {
    hide CorrSum;
    var half := (|a2| - 1) / 2;
    ghost var x := a1[a1Start..a1Start + a1Len];
    var end1 := half + 1;
    for i := 0 to end1
      invariant a1[a1Start..a1Start + a1Len] == x
      invariant forall k :: 0 <= k < i ==> out[k] == CorrSum(x, a2, k - half, 0, |a2|)
    {
      out[i] := Row(a1, a1Start, a1Len, a2, i - half, half - i, |a2|);
      CorrSumClip(x, a2, i - half, half - i, |a2|, |a2|);
    }
    var end := a1Len - end1 + a1.Length % 2;
    for i := end1 to end
      invariant a1[a1Start..a1Start + a1Len] == x
      invariant forall k :: 0 <= k < i ==> out[k] == CorrSum(x, a2, k - half, 0, |a2|)
    {
      out[i] := Row(a1, a1Start, a1Len, a2, i - half, 0, |a2|);
    }
    for i := end to a1Len
      invariant a1[a1Start..a1Start + a1Len] == x
      invariant forall k :: 0 <= k < i ==> out[k] == CorrSum(x, a2, k - half, 0, |a2|)
    {
      var lastJ := a1Len - i + half;
      out[i] := Row(a1, a1Start, a1Len, a2, i - half, 0, lastJ);
      CorrSumClip(x, a2, i - half, 0, lastJ, |a2|);
    }
  }

  // ---- Equalizer ----

  /** SUM over a <= j < b of the real part of x[base + j] * conj(y[j]). */
  function DotSum(x: seq<Complex>, y: seq<Complex>, base: int, a: nat, b: nat): real
    requires a <= b <= |y|
    decreases b - a
  {
    if a == b then 0.0
    else DotSum(x, y, base, a, b - 1) + Pad(x, base + b - 1).re * y[b - 1].re + Pad(x, base + b - 1).im * y[b - 1].im
  }

  /** A tap whose sample lies outside the window adds nothing. */
  lemma DotSkip(x: seq<Complex>, y: seq<Complex>, base: int, a: nat, b: nat)
    requires a <= b < |y| && !(0 <= base + b < |x|)
    ensures DotSum(x, y, base, a, b + 1) == DotSum(x, y, base, a, b)
  {
    assert Pad(x, base + b) == ZERO;
  }

  lemma {:induction false} DotFront(x: seq<Complex>, y: seq<Complex>, base: int, a: nat, b: nat)
    requires a <= b <= |y| && (base + a <= 0 || a == 0)
    ensures DotSum(x, y, base, 0, b) == DotSum(x, y, base, a, b)
    decreases b
  {
    hide Pad;
    if b > a {
      DotFront(x, y, base, a, b - 1);
    } else if b > 0 {
      DotFront(x, y, base, b - 1, b - 1);
      DotSkip(x, y, base, 0, b - 1);
    }
  }

  lemma {:induction false} DotEnd(x: seq<Complex>, y: seq<Complex>, base: int, b: nat, e: nat)
    requires b <= e <= |y| && (base + b >= |x| || b == e)
    ensures DotSum(x, y, base, 0, e) == DotSum(x, y, base, 0, b)
    decreases e
  {
    hide Pad, DotSum;
    if e > b {
      DotEnd(x, y, base, b, e - 1);
      DotSkip(x, y, base, 0, e - 1);
    }
  }

  lemma DotSumClip(x: seq<Complex>, y: seq<Complex>, base: int, a: nat, b: nat, e: nat)
    requires a <= b <= e <= |y|
    requires base + a <= 0 || a == 0
    requires base + b >= |x| || b == e
    ensures DotSum(x, y, base, 0, e) == DotSum(x, y, base, a, b)
  {
    hide DotSum;
    DotEnd(x, y, base, b, e);
    DotFront(x, y, base, a, b);
  }

  method DotRow(in1: array<Complex>, y: seq<Complex>, base: int, from: nat, to: nat) returns (v: real)
    requires from <= to <= |y|
    requires from < to ==> 0 <= base + from && base + to <= in1.Length
    ensures v == DotSum(in1[..], y, base, from, to)
  {
    v := 0.0;
    for j := from to to
      invariant v == DotSum(in1[..], y, base, from, j)
    {
      v := v + in1[base + j].re * y[j].re + in1[base + j].im * y[j].im;
    }
  }

  /** defaultEqualize: the correlation with the channel estimate, real part only. */
  method Equalize(in1: array<Complex>, in2: seq<Complex>, in2len: nat) returns (out: array<real>)
    requires 0 < in2len <= |in2| && in1.Length >= 2 * ((in2len - 1) / 2 + 1)
    requires in2len % 2 == 1 || in1.Length % 2 == 0
    ensures fresh(out) && out.Length == in1.Length
    ensures forall i :: 0 <= i < out.Length ==>
      out[i] == DotSum(in1[..], in2[..in2len], i - (in2len - 1) / 2, 0, in2len)
  {
    hide DotSum;
    out := new real[in1.Length](_ => 0.0);
    var half := (in2len - 1) / 2;
    var y := in2[..in2len];
    ghost var x := in1[..];
    var end1 := half + 1;
    for i := 0 to end1
      invariant in1[..] == x && forall k :: 0 <= k < i ==> out[k] == DotSum(x, y, k - half, 0, in2len)
    {
      out[i] := DotRow(in1, y, i - half, half - i, in2len);
      DotSumClip(x, y, i - half, half - i, in2len, in2len);
    }
    var end := in1.Length - end1 + in1.Length % 2;
    for i := end1 to end
      invariant in1[..] == x && forall k :: 0 <= k < i ==> out[k] == DotSum(x, y, k - half, 0, in2len)
    {
      out[i] := DotRow(in1, y, i - half, 0, in2len);
    }
    for i := end to in1.Length
      invariant in1[..] == x && forall k :: 0 <= k < i ==> out[k] == DotSum(x, y, k - half, 0, in2len)
    {
      var lastJ := in1.Length - i + half;
      out[i] := DotRow(in1, y, i - half, 0, lastJ);
      DotSumClip(x, y, i - half, 0, lastJ, in2len);
    }
  }

  // ---- Half band filter ----

  /** n0 in the source: half the filter length, rounded up. */
  function HalfLen(taps: nat): nat {
    (taps + 1) / 2
  }

  /** SUM over a <= k < m of x[base + 2 * k] * h[2 * k]. */
  function EvenSum(x: seq<Complex>, h: seq<real>, base: int, a: nat, m: nat): Complex
    requires a <= m <= HalfLen(|h|)
    decreases m - a
  {
    if a == m then ZERO
    else Plus(EvenSum(x, h, base, a, m - 1), Times(Pad(x, base + 2 * (m - 1)), h[2 * (m - 1)]))
  }

  /** A tap whose sample lies outside the window adds nothing. */
  lemma EvenSkip(x: seq<Complex>, h: seq<real>, base: int, a: nat, b: nat)
    requires a <= b < HalfLen(|h|) && !(0 <= base + 2 * b < |x|)
    ensures EvenSum(x, h, base, a, b + 1) == EvenSum(x, h, base, a, b)
  {
    assert Pad(x, base + 2 * b) == ZERO;
  }

  lemma {:induction false} EvenFront(x: seq<Complex>, h: seq<real>, base: int, a: nat, b: nat)
    requires a <= b <= HalfLen(|h|) && (base + 2 * a <= 1 || a == 0)
    ensures EvenSum(x, h, base, 0, b) == EvenSum(x, h, base, a, b)
    decreases b
  {
    hide Pad;
    if b > a {
      EvenFront(x, h, base, a, b - 1);
    } else if b > 0 {
      EvenFront(x, h, base, b - 1, b - 1);
      EvenSkip(x, h, base, 0, b - 1);
    }
  }

  lemma {:induction false} EvenEnd(x: seq<Complex>, h: seq<real>, base: int, b: nat, e: nat)
    requires b <= e <= HalfLen(|h|) && (base + 2 * b >= |x| || b == e)
    ensures EvenSum(x, h, base, 0, e) == EvenSum(x, h, base, 0, b)
    decreases e
  {
    hide Pad, EvenSum;
    if e > b {
      EvenEnd(x, h, base, b, e - 1);
      EvenSkip(x, h, base, 0, e - 1);
    }
  }

  lemma EvenSumClip(x: seq<Complex>, h: seq<real>, base: int, a: nat, m: nat, e: nat)
    requires a <= m <= e <= HalfLen(|h|)
    requires base + 2 * a <= 1 || a == 0
    requires base + 2 * m >= |x| || m == e
    ensures EvenSum(x, h, base, 0, e) == EvenSum(x, h, base, a, m)
  {
    hide EvenSum;
    EvenEnd(x, h, base, m, e);
    EvenFront(x, h, base, a, m);
  }

  /** substract in the source: how far the filter reaches back. */
  function Back(taps: nat): nat {
    HalfLen(taps) - (if taps % 2 == 1 && taps > 0 then 1 else 0)
  }

  /** The samples the three loops read for output i: tap j against sample i + j - Back. */
  predicate HalfBandVisited(taps: nat, len: nat, i: nat, j: nat) {
    VisitedTaps(HalfLen(taps), taps, len, i, j)
  }

  predicate VisitedTaps(n0: nat, taps: nat, len: nat, i: nat, j: nat) {
    && i < len
    && (if i < n0 then n0 - i <= j < taps && (j - (n0 - i)) % 2 == 0
        else if i < len - n0 + len % 2 then j < taps && j % 2 == 0
        else j < len - i + n0 - 1 && j % 2 == 0)
  }

  /** For even outputs the loops use exactly the even taps whose sample exists, if and only if
      half the filter length, rounded up, is even, and the filter length is odd or the signal
      length even. */
  lemma HalfBandTapsIff(taps: nat, len: nat)
    requires taps > 0 && len >= taps + 1
    ensures (forall i: nat, j: nat :: i < len && i % 2 == 0 ==>
               (HalfBandVisited(taps, len, i, j) <==> j < taps && j % 2 == 0 && 0 <= i + j - Back(taps) < len))
      <==> HalfLen(taps) % 2 == 0 && (taps % 2 == 1 || len % 2 == 0)
  {
    hide HalfBandVisited, Back;
    if HalfLen(taps) % 2 == 0 && (taps % 2 == 1 || len % 2 == 0) {
      forall i: nat, j: nat | i < len && i % 2 == 0
        ensures HalfBandVisited(taps, len, i, j) <==> j < taps && j % 2 == 0 && 0 <= i + j - Back(taps) < len
      {
        VisitsEvenTaps(taps, len, i, j);
      }
    } else {
      var i, j := WrongTap(taps, len);
    }
  }

  /** Otherwise a tap is taken that is odd, or one that exists is left out. */
  lemma WrongTap(taps: nat, len: nat) returns (i: nat, j: nat)
    requires taps > 0 && len >= taps + 1
    requires !(HalfLen(taps) % 2 == 0 && (taps % 2 == 1 || len % 2 == 0))
    ensures i < len && i % 2 == 0
    ensures !(HalfBandVisited(taps, len, i, j) <==> j < taps && j % 2 == 0 && 0 <= i + j - Back(taps) < len)
  {
    if HalfLen(taps) % 2 == 1 {
      i, j := OddHalf(taps, len);
    } else {
      i, j := len - HalfLen(taps) + 1, taps - 2;
      LastTapMissed(taps / 2, len / 2);
    }
  }

  /** With an odd half the first output takes an odd tap, or with one tap only none. */
  lemma OddHalf(taps: nat, len: nat) returns (i: nat, j: nat)
    requires taps > 0 && len >= taps + 1 && HalfLen(taps) % 2 == 1
    ensures i < len && i % 2 == 0
    ensures !(HalfBandVisited(taps, len, i, j) <==> j < taps && j % 2 == 0 && 0 <= i + j - Back(taps) < len)
  {
    i, j := 0, if taps > 1 then HalfLen(taps) else 0;
  }

  /** With an even filter and an odd signal the last output misses a tap. */
  lemma LastTapMissed(n0: nat, m: nat)
    requires n0 > 0 && n0 % 2 == 0 && 2 * m + 1 >= 2 * n0 + 1
    ensures var taps, len := 2 * n0, 2 * m + 1; var i, j := len - n0 + 1, taps - 2;
      && i < len && i % 2 == 0 && !HalfBandVisited(taps, len, i, j)
      && j < taps && j % 2 == 0 && 0 <= i + j - Back(taps) < len
  {
    assert HalfLen(2 * n0) == n0 && Back(2 * n0) == n0;
    RemainderUnique(2 * n0 - 2, 2, n0 - 1, 0);
    RemainderUnique(2 * m + 1 - n0 + 1, 2, m + 1 - n0 / 2, 0);
  }

  lemma VisitsEvenTaps(taps: nat, len: nat, i: nat, j: nat)
    requires taps > 0 && len >= taps + 1 && i < len && i % 2 == 0
    requires HalfLen(taps) % 2 == 0 && (taps % 2 == 1 || len % 2 == 0)
    ensures HalfBandVisited(taps, len, i, j) <==> j < taps && j % 2 == 0 && 0 <= i + j - Back(taps) < len
  {
    var b := QuarterLen(taps);
    hide VisitedTaps, Back, HalfLen;
    assert i == 2 * (i / 2) && len == 2 * (len / 2) + len % 2 && j == 2 * (j / 2) + j % 2;
    EvenTaps(b, taps % 2, i / 2, len / 2, len % 2, j / 2, j % 2);
  }

  lemma QuarterLen(taps: nat) returns (b: nat)
    requires taps > 0 && HalfLen(taps) % 2 == 0
    ensures b > 0 && HalfLen(taps) == 2 * b && taps == 4 * b - taps % 2 && Back(taps) == 2 * b - taps % 2
  {
    b := HalfLen(taps) / 2;
  }

  /** The same on lengths and indices split into halves and parities. */
  lemma EvenTaps(b: nat, e: nat, a: nat, m: nat, f: nat, q: nat, r: nat)
    requires b > 0 && e <= 1 && f <= 1 && r <= 1 && (e == 1 || f == 0)
    requires 2 * m + f >= 4 * b - e + 1 && 2 * a < 2 * m + f
    ensures VisitedTaps(2 * b, 4 * b - e, 2 * m + f, 2 * a, 2 * q + r)
       <==> 2 * q + r < 4 * b - e && r == 0 && 0 <= 2 * a + 2 * q + r - (2 * b - e) < 2 * m + f
  {
    TapsWithoutRemainders(b, e, a, m, f, q, r);
    hide VisitedTaps;
    HalfBounds(a + q - b, e, m, f);
  }

  /** Parities decide comparisons that are off by one. */
  lemma HalfBounds(d: int, e: nat, m: int, f: nat)
    requires e <= 1 && f <= 1 && (e == 1 || f == 0)
    ensures 2 * d + e >= 0 <==> d >= 0
    ensures 2 * d + 1 < 2 * m + f <==> 2 * d + e < 2 * m + f
  {
    if e == 0 {
      assert 2 * d + 1 < 2 * m <==> d < m;
    }
  }

  lemma TapsWithoutRemainders(b: nat, e: nat, a: nat, m: nat, f: nat, q: nat, r: nat)
    requires b > 0 && e <= 1 && f <= 1 && r <= 1
    ensures VisitedTaps(2 * b, 4 * b - e, 2 * m + f, 2 * a, 2 * q + r)
       <==> 2 * a < 2 * m + f && r == 0
            && (if a < b then 2 * b - 2 * a <= 2 * q < 4 * b - e
                else if a < m + f - b then 2 * q < 4 * b - e
                else 2 * q < 2 * m + f - 2 * a + 2 * b - 1)
  {
    RemainderUnique(2 * m + f, 2, m, f);
    RemainderUnique(2 * q + r, 2, q, r);
    RemainderUnique(2 * q + r - (2 * b - 2 * a), 2, q - (b - a), r);
  }

  method EvenRow(x: array<Complex>, h: seq<real>, base: int, a: nat, m: nat) returns (w: Complex)
    requires a <= m <= HalfLen(|h|)
    requires a < m ==> 0 <= base + 2 * a && base + 2 * (m - 1) < x.Length
    ensures w == EvenSum(x[..], h, base, a, m)
  {
    w := ZERO;
    for k := a to m
      invariant w == EvenSum(x[..], h, base, a, k)
    {
      w := Plus(w, Times(x[base + 2 * k], h[2 * k]));
    }
  }

  /** The first k even outputs are the zero padded sums over the even taps. */
  ghost predicate Filtered(w: seq<Complex>, x: seq<Complex>, h: seq<real>, k: nat)
    requires 2 * k <= |w| + 1
  {
    forall c :: 0 <= c < k ==> w[2 * c] == EvenSum(x, h, 2 * c - Back(|h|), 0, HalfLen(|h|))
  }

  lemma NothingFiltered(w: seq<Complex>, x: seq<Complex>, h: seq<real>)
    ensures Filtered(w, x, h, 0)
  {
  }

  /** One more even output. */
  lemma FilteredNext(w: seq<Complex>, x: seq<Complex>, h: seq<real>, k: nat, v: Complex)
    requires 2 * k < |w| && Filtered(w, x, h, k) && v == EvenSum(x, h, 2 * k - Back(|h|), 0, HalfLen(|h|))
    ensures Filtered(w[2 * k := v], x, h, k + 1)
  {
    hide EvenSum;
  }

  /** The lengths the loops are right for. */
  predicate Fits(taps: nat, len: nat) {
    taps > 0 && len >= taps + 1 && HalfLen(taps) % 2 == 0 && (taps % 2 == 1 || len % 2 == 0)
  }

  /** Where the second loop ends. */
  function MiddleEnd(taps: nat, len: nat): int {
    len - HalfLen(taps) + len % 2
  }

  ghost predicate Filterable(x: array<Complex>, h: seq<real>, w: array<Complex>) {
    x != w && w.Length >= x.Length && Fits(|h|, x.Length)
  }

  /** All bounds of the loops are even. */
  lemma EvenBounds(taps: nat, len: nat) returns (start: nat, end: nat)
    requires Fits(taps, len)
    ensures HalfLen(taps) == 2 * start && MiddleEnd(taps, len) == 2 * end && 0 < start <= end
    ensures MiddleEnd(taps, len) <= len && end <= HalfLen(len)
    ensures HalfLen(taps) - taps % 2 == Back(taps)
  {
    start := HalfLen(taps) / 2;
    end := len / 2 + len % 2 - start;
  }

  lemma Rounded(len: nat, k: nat)
    ensures 2 * k < len ==> k < HalfLen(len)
    ensures 2 * k >= len && k <= HalfLen(len) ==> k == HalfLen(len)
  {
  }

  /** First loop: taps before the start of the signal are skipped. */
  method FilterStart(x: array<Complex>, h: seq<real>, w: array<Complex>) returns (i: nat)
    requires Filterable(x, h, w)
    modifies w
    ensures i == HalfLen(|h|) && Filtered(w[..], x[..], h, i / 2)
  {
    ghost var x0 := x[..];
    var n0 := HalfLen(|h|);
    i := 0;
    ghost var start, _ := EvenBounds(|h|, x.Length);
    ghost var k := 0;
    NothingFiltered(w[..], x0, h);
    hide EvenSum, Filtered, Fits, HalfLen, Back;
    while i < n0
      invariant i == 2 * k && k <= start && x[..] == x0 && Filtered(w[..], x0, h, k)
    {
      var row := FirstRow(x, h, i, n0, k, start);
      FilteredNext(w[..], x0, h, k, row);
      w[i] := row;
      i, k := i + 2, k + 1;
    }
  }

  /** A row of the first loop: the taps that already have a sample. */
  method FirstRow(x: array<Complex>, h: seq<real>, i: nat, n0: nat, ghost k: nat, ghost start: nat)
    returns (row: Complex)
    requires Fits(|h|, x.Length) && n0 == HalfLen(|h|) == 2 * start && i == 2 * k && k < start
    ensures row == EvenSum(x[..], h, 2 * k - Back(|h|), 0, HalfLen(|h|))
  {
    hide EvenSum;
    var substract := n0 - |h| % 2;
    EvenSumClip(x[..], h, i - substract, start - k, n0, n0);
    row := EvenRow(x, h, i - substract, (n0 - i) / 2, n0);
  }

  /** Second loop: all even taps. */
  method FilterMiddle(x: array<Complex>, h: seq<real>, w: array<Complex>, start: nat) returns (i: nat)
    requires Filterable(x, h, w) && start == HalfLen(|h|) && Filtered(w[..], x[..], h, start / 2)
    modifies w
    ensures i == MiddleEnd(|h|, x.Length) && Filtered(w[..], x[..], h, i / 2)
  {
    ghost var x0 := x[..];
    var end := x.Length - start + x.Length % 2;
    i := start;
    ghost var k, last := EvenBounds(|h|, x.Length);
    assert end == MiddleEnd(|h|, x.Length) && start / 2 == k;
    hide EvenSum, Filtered, Back, Fits, HalfLen, MiddleEnd;
    while i < end
      invariant i == 2 * k && start <= i && k <= last && x[..] == x0 && Filtered(w[..], x0, h, k)
    {
      var row := MiddleRow(x, h, i, start, k);
      FilteredNext(w[..], x0, h, k, row);
      w[i] := row;
      i, k := i + 2, k + 1;
    }
  }

  /** A row of the second loop: every even tap has its sample. */
  method MiddleRow(x: array<Complex>, h: seq<real>, i: nat, start: nat, ghost k: nat) returns (row: Complex)
    requires Fits(|h|, x.Length) && start == HalfLen(|h|) <= i < MiddleEnd(|h|, x.Length) && i == 2 * k
    ensures row == EvenSum(x[..], h, 2 * k - Back(|h|), 0, HalfLen(|h|))
  {
    hide EvenSum;
    var substract := start - |h| % 2;
    row := EvenRow(x, h, i - substract, 0, start);
  }

  /** A row of the last loop: the taps that still have a sample. */
  method LastRow(x: array<Complex>, h: seq<real>, i: nat, n0: nat, ghost k: nat) returns (row: Complex)
    requires Fits(|h|, x.Length) && n0 == HalfLen(|h|) && MiddleEnd(|h|, x.Length) <= i < x.Length && i == 2 * k
    ensures row == EvenSum(x[..], h, 2 * k - Back(|h|), 0, HalfLen(|h|))
  {
    var substract := n0 - |h| % 2;
    var lastJ := x.Length - i + n0;
    if i + lastJ - substract >= x.Length {
      lastJ := lastJ - 1;
    }
    LastTaps(x.Length, |h|, i, n0, i - substract, lastJ);
    hide EvenSum, Back, Fits, HalfLen, MiddleEnd;
    EvenSumClip(x[..], h, i - substract, 0, (lastJ + 1) / 2, n0);
    row := EvenRow(x, h, i - substract, 0, (lastJ + 1) / 2);
  }

  /** The bound of the last loop separates the taps with a sample from those without. */
  lemma LastTaps(len: nat, taps: nat, i: nat, n0: nat, base: int, lastJ: nat)
    requires Fits(taps, len) && n0 == HalfLen(taps) && base == i - (n0 - taps % 2) && i % 2 == 0
    requires MiddleEnd(taps, len) <= i < len
    requires lastJ == if base + (len - i + n0) >= len then len - i + n0 - 1 else len - i + n0
    ensures (lastJ + 1) / 2 <= n0 && 0 <= base == i - Back(taps) && base + 2 * ((lastJ + 1) / 2) >= len
    ensures base + 2 * ((lastJ + 1) / 2 - 1) < len
  {
    assert taps == 2 * n0 - taps % 2 && base == i - n0 + taps % 2;
    assert lastJ == len - i + n0 - 1;
  }

  /** Last loop: taps past the end of the signal are skipped. */
  method FilterEnd(x: array<Complex>, h: seq<real>, w: array<Complex>, end: nat)
    requires Filterable(x, h, w)
    requires end == MiddleEnd(|h|, x.Length) && Filtered(w[..], x[..], h, end / 2)
    modifies w
    ensures Filtered(w[..], x[..], h, HalfLen(x.Length))
  {
    ghost var x0 := x[..];
    var n0 := HalfLen(|h|);
    var i := end;
    ghost var _, k := EvenBounds(|h|, x.Length);
    assert end / 2 == k;
    hide EvenSum, Filtered, Back, Fits, HalfLen, MiddleEnd;
    while i < x.Length
      invariant i == 2 * k && end <= i && k <= HalfLen(x.Length) && x[..] == x0 && Filtered(w[..], x0, h, k)
    {
      Rounded(x.Length, k);
      var row := LastRow(x, h, i, n0, k);
      FilteredNext(w[..], x0, h, k, row);
      w[i] := row;
      i, k := i + 2, k + 1;
    }
    Rounded(x.Length, k);
  }

  /** qmfBuildHalfBandFilter: every even output is the zero padded sum over the even taps. */
  method BuildHalfBandFilter(x: array<Complex>, h: seq<real>, w: array<Complex>)
    requires Filterable(x, h, w)
    modifies w
    ensures Filtered(w[..], x[..], h, HalfLen(x.Length))
  {
    var start := FilterStart(x, h, w);
    var end := FilterMiddle(x, h, w, start);
    FilterEnd(x, h, w, end);
  }
}
